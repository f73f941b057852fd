/**
 * Combining the qualifying groups into one percentage under the course's
 * weighting scheme. A grade the page would show as NaN or Infinity is None.
 */
module GradeAggregator {
  import opened Wrappers
  import opened GroupScorer

  /** The course's weighting scheme: absent (`null`) or a name. */
  datatype Scheme = NoScheme | Named(name: string)

  /** The grade left in place when the scheme is none of the known ones. */
  const Unrecognised: real := -1.0

  function SumEarned(rs: seq<GroupResult>): real {
    if rs == [] then 0.0 else SumEarned(rs[..|rs| - 1]) + rs[|rs| - 1].earned
  }

  function SumTotal(rs: seq<GroupResult>): real {
    if rs == [] then 0.0 else SumTotal(rs[..|rs| - 1]) + rs[|rs| - 1].total
  }

  predicate NoZeroTotal(rs: seq<GroupResult>) {
    forall i :: 0 <= i < |rs| ==> rs[i].total != 0.0
  }

  /** True when every group has a zero total, so the percent loop never divides. */
  predicate AllZeroTotal(rs: seq<GroupResult>) {
    forall i :: 0 <= i < |rs| ==> rs[i].total == 0.0
  }

  /** The groups' earned-over-total ratios, summed. */
  function RatioSum(rs: seq<GroupResult>): real
    requires NoZeroTotal(rs)
  {
    if rs == [] then 0.0
    else
      var n := |rs| - 1;
      assert forall i :: 0 <= i < n ==> rs[..n][i] == rs[i];
      RatioSum(rs[..n]) + rs[n].earned / rs[n].total
  }

  /** Each group's ratio times its share of the total weight, summed; groups with zero total are left out. */
  function WeightedSum(rs: seq<GroupResult>, totalWeight: real): real
    requires totalWeight != 0.0
  {
    if rs == [] then 0.0
    else
      var n := |rs| - 1;
      WeightedSum(rs[..n], totalWeight) + Contribution(rs[n], totalWeight)
  }

  /** One group's part of the percent grade: its ratio times its share of the total weight, or nothing if its total is zero. */
  function Contribution(r: GroupResult, totalWeight: real): real
    requires totalWeight != 0.0
  {
    if r.total == 0.0 then 0.0 else (r.earned / r.total) * (r.weight / totalWeight)
  }

  /** Points scheme: earned over total across all qualifying groups; undefined when the total is zero. */
  function PointsGrade(rs: seq<GroupResult>): Option<real> {
    if SumTotal(rs) == 0.0 then None else Some(SumEarned(rs) / SumTotal(rs) * 100.0)
  }

  /** Equal scheme: the mean of the group ratios; undefined with no groups or with a group whose total is zero. */
  function EqualGrade(rs: seq<GroupResult>): Option<real> {
    if rs == [] || !NoZeroTotal(rs) then None
    else Some(RatioSum(rs) / (|rs| as real) * 100.0)
  }

  /**
   * Percent scheme: the ratios weighted by weight over the total weight.
   * Undefined when some group with a nonzero total has to be divided by a
   * total weight of zero; zero when there is nothing to add up.
   */
  function PercentGrade(rs: seq<GroupResult>, totalWeight: real): Option<real> {
    if totalWeight == 0.0 then
      if AllZeroTotal(rs) then Some(0.0) else None
    else Some(WeightedSum(rs, totalWeight) * 100.0)
  }

  /** The final grade under the scheme; an unrecognised scheme leaves the sentinel -1. */
  function Grade(scheme: Scheme, rs: seq<GroupResult>, totalWeight: real): Option<real> {
    if scheme == NoScheme || scheme == Named("points") then PointsGrade(rs)
    else if scheme == Named("equal") then EqualGrade(rs)
    else if scheme == Named("percent") then PercentGrade(rs, totalWeight)
    else Some(Unrecognised)
  }

  /** The points loop: sums earned and total over the groups, then divides. */
  method PointsSchemeGrade(rs: seq<GroupResult>) returns (grade: Option<real>)
    ensures grade == PointsGrade(rs)
  {
    var totalPoints, pointsEarned := 0.0, 0.0;
    var i := 0;
    while i < |rs|
      invariant 0 <= i <= |rs|
      invariant totalPoints == SumTotal(rs[..i]) && pointsEarned == SumEarned(rs[..i])
    {
      assert rs[..i + 1][..i] == rs[..i];
      totalPoints := totalPoints + rs[i].total;
      pointsEarned := pointsEarned + rs[i].earned;
      i := i + 1;
    }
    assert rs[..|rs|] == rs;
    if totalPoints == 0.0 {
      grade := None;
    } else {
      grade := Some(pointsEarned / totalPoints * 100.0);
    }
  }

  /** The equal loop: sums the group ratios, then takes their mean. */
  method EqualSchemeGrade(rs: seq<GroupResult>) returns (grade: Option<real>)
    ensures grade == EqualGrade(rs)
  {
    var totalAverage := 0.0;
    var i := 0;
    while i < |rs|
      invariant 0 <= i <= |rs|
      invariant NoZeroTotal(rs[..i])
      invariant totalAverage == RatioSum(rs[..i])
    {
      assert rs[..i + 1][..i] == rs[..i];
      if rs[i].total == 0.0 {
        // the division by zero makes the page's grade non-finite
        return None;
      }
      totalAverage := totalAverage + rs[i].earned / rs[i].total;
      i := i + 1;
    }
    assert rs[..|rs|] == rs;
    if |rs| == 0 {
      grade := None;
    } else {
      grade := Some(totalAverage / (|rs| as real) * 100.0);
    }
  }

  /** The percent loop: skips groups with zero total and weights the others' ratios. */
  method PercentSchemeGrade(rs: seq<GroupResult>, totalWeight: real) returns (grade: Option<real>)
    ensures grade == PercentGrade(rs, totalWeight)
  {
    var weightedAverage := 0.0;
    var i := 0;
    while i < |rs|
      invariant 0 <= i <= |rs|
      invariant totalWeight == 0.0 ==> AllZeroTotal(rs[..i]) && weightedAverage == 0.0
      invariant totalWeight != 0.0 ==> weightedAverage == WeightedSum(rs[..i], totalWeight)
    {
      assert rs[..i + 1][..i] == rs[..i];
      if rs[i].total == 0.0 {
        i := i + 1;
        continue;
      }
      if totalWeight == 0.0 {
        // the weight share divides by zero: the page's grade is non-finite
        return None;
      }
      var groupGrade := rs[i].earned / rs[i].total;
      var groupWeight := rs[i].weight / totalWeight;
      weightedAverage := weightedAverage + groupGrade * groupWeight;
      i := i + 1;
    }
    assert rs[..|rs|] == rs;
    grade := Some(weightedAverage * 100.0);
  }

  /** Chooses the formula by the scheme, leaving -1 for a scheme it does not know. */
  method CalculateGrade(scheme: Scheme, rs: seq<GroupResult>, totalWeight: real) returns (grade: Option<real>)
    ensures grade == Grade(scheme, rs, totalWeight)
  {
    grade := Some(Unrecognised);
    if scheme == NoScheme || scheme == Named("points") {
      grade := PointsSchemeGrade(rs);
    } else if scheme == Named("equal") {
      grade := EqualSchemeGrade(rs);
    } else if scheme == Named("percent") {
      grade := PercentSchemeGrade(rs, totalWeight);
    }
  }

  // ---- Properties of the three schemes ----

  /** Every group earned between nothing and its total. */
  predicate EarnedWithinTotal(rs: seq<GroupResult>) {
    forall i :: 0 <= i < |rs| ==> 0.0 <= rs[i].earned <= rs[i].total
  }

  lemma {:induction false} SumsWithin(rs: seq<GroupResult>)
    requires EarnedWithinTotal(rs)
    ensures 0.0 <= SumEarned(rs) <= SumTotal(rs)
  {
    if rs != [] {
      var n := |rs| - 1;
      assert forall i :: 0 <= i < n ==> rs[..n][i] == rs[i];
      SumsWithin(rs[..n]);
    }
  }

  /** A part no larger than a positive whole makes at most 100 percent of it. */
  lemma PercentOfWhole(part: real, whole: real)
    requires 0.0 <= part <= whole && whole > 0.0
    ensures 0.0 <= part / whole * 100.0 <= 100.0
  {
    assert part / whole <= 1.0 by {
      assert part / whole * whole == part;
    }
  }

  /** Points scheme: with no group earning more than its total, the grade is undefined or between 0 and 100. */
  lemma PointsGradeBounded(rs: seq<GroupResult>)
    requires EarnedWithinTotal(rs)
    ensures PointsGrade(rs) == None <==> SumTotal(rs) == 0.0
    ensures PointsGrade(rs).Some? ==> 0.0 <= PointsGrade(rs).value <= 100.0
  {
    SumsWithin(rs);
    if SumTotal(rs) != 0.0 {
      PercentOfWhole(SumEarned(rs), SumTotal(rs));
    }
  }

  /** Each group's ratio lies between 0 and 1. */
  predicate RatiosWithinOne(rs: seq<GroupResult>) {
    forall i :: 0 <= i < |rs| ==> 0.0 <= rs[i].earned <= rs[i].total && rs[i].total > 0.0
  }

  lemma {:induction false} RatioSumWithin(rs: seq<GroupResult>)
    requires RatiosWithinOne(rs)
    ensures NoZeroTotal(rs)
    ensures 0.0 <= RatioSum(rs) <= |rs| as real
  {
    if rs != [] {
      var n := |rs| - 1;
      assert forall i :: 0 <= i < n ==> rs[..n][i] == rs[i];
      RatioSumWithin(rs[..n]);
      PercentOfWhole(rs[n].earned, rs[n].total);
    }
  }

  /** Equal scheme: with every ratio between 0 and 1 and at least one group, the grade is between 0 and 100. */
  lemma EqualGradeBounded(rs: seq<GroupResult>)
    requires RatiosWithinOne(rs) && rs != []
    ensures EqualGrade(rs).Some?
    ensures 0.0 <= EqualGrade(rs).value <= 100.0
  {
    RatioSumWithin(rs);
    PercentOfWhole(RatioSum(rs), |rs| as real);
  }

  /** Two lists of group results that differ at most in their weights. */
  predicate SameScores(rs: seq<GroupResult>, ss: seq<GroupResult>) {
    |rs| == |ss| && forall i :: 0 <= i < |rs| ==> rs[i].earned == ss[i].earned && rs[i].total == ss[i].total
  }

  lemma {:induction false} RatioSumIgnoresWeights(rs: seq<GroupResult>, ss: seq<GroupResult>)
    requires SameScores(rs, ss) && NoZeroTotal(rs)
    ensures NoZeroTotal(ss) && RatioSum(rs) == RatioSum(ss)
  {
    if rs != [] {
      var n := |rs| - 1;
      assert forall i :: 0 <= i < n ==> rs[..n][i] == rs[i] && ss[..n][i] == ss[i];
      RatioSumIgnoresWeights(rs[..n], ss[..n]);
    }
  }

  /** Equal scheme: the grade does not depend on the group weights, nor on the total weight. */
  lemma EqualIgnoresWeights(rs: seq<GroupResult>, ss: seq<GroupResult>, tw: real, tw': real)
    requires SameScores(rs, ss)
    ensures Grade(Named("equal"), rs, tw) == Grade(Named("equal"), ss, tw')
  {
    if NoZeroTotal(rs) {
      RatioSumIgnoresWeights(rs, ss);
    } else {
      var i :| 0 <= i < |rs| && rs[i].total == 0.0;
      assert ss[i].total == 0.0;
    }
  }

  /** The results with every weight multiplied by c. */
  function ScaleWeights(rs: seq<GroupResult>, c: real): (ss: seq<GroupResult>)
    ensures |ss| == |rs|
  {
    if rs == [] then []
    else
      var n := |rs| - 1;
      ScaleWeights(rs[..n], c) + [rs[n].(weight := rs[n].weight * c)]
  }

  lemma ShareUnchanged(w: real, tw: real, c: real)
    requires tw != 0.0 && c != 0.0
    ensures (w * c) / (tw * c) == w / tw
  {
    assert (w * c) / (tw * c) * (tw * c) == w * c;
    assert (w / tw) * (tw * c) == w * c;
  }

  lemma ContributionScaled(r: GroupResult, tw: real, c: real)
    requires tw != 0.0 && c != 0.0
    ensures Contribution(r.(weight := r.weight * c), tw * c) == Contribution(r, tw)
  {
    ShareUnchanged(r.weight, tw, c);
  }

  lemma {:induction false} WeightedSumScaled(rs: seq<GroupResult>, tw: real, c: real)
    requires tw != 0.0 && c != 0.0
    ensures WeightedSum(ScaleWeights(rs, c), tw * c) == WeightedSum(rs, tw)
  {
    if rs != [] {
      var n := |rs| - 1;
      var ss := ScaleWeights(rs, c);
      assert ss[..n] == ScaleWeights(rs[..n], c);
      assert ss[n] == rs[n].(weight := rs[n].weight * c);
      WeightedSumScaled(rs[..n], tw, c);
      ContributionScaled(rs[n], tw, c);
    }
  }

  lemma {:induction false} ScaledAllZeroTotal(rs: seq<GroupResult>, c: real)
    ensures AllZeroTotal(ScaleWeights(rs, c)) == AllZeroTotal(rs)
    ensures forall i :: 0 <= i < |rs| ==> ScaleWeights(rs, c)[i].total == rs[i].total
  {
    if rs != [] {
      var n := |rs| - 1;
      ScaledAllZeroTotal(rs[..n], c);
    }
  }

  /**
   * Percent scheme: multiplying every group weight, and so the total weight,
   * by the same positive factor leaves the grade unchanged; only the shares
   * of the weight matter.
   */
  lemma PercentScaleInvariant(rs: seq<GroupResult>, tw: real, c: real)
    requires c > 0.0
    ensures Grade(Named("percent"), ScaleWeights(rs, c), tw * c) == Grade(Named("percent"), rs, tw)
  {
    ScaledAllZeroTotal(rs, c);
    if tw != 0.0 {
      WeightedSumScaled(rs, tw, c);
    }
  }

  lemma {:induction false} WeightedSumAppend(rs: seq<GroupResult>, ss: seq<GroupResult>, tw: real)
    requires tw != 0.0
    ensures WeightedSum(rs + ss, tw) == WeightedSum(rs, tw) + WeightedSum(ss, tw)
  {
    if ss == [] {
      assert rs + ss == rs;
    } else {
      var n := |ss| - 1;
      assert (rs + ss)[..|rs| + n] == rs + ss[..n];
      WeightedSumAppend(rs, ss[..n], tw);
    }
  }

  /**
   * Percent scheme: a qualifying group whose total is zero is skipped in the
   * weighted sum, although its weight stays in the total weight.
   */
  lemma PercentSkipsZeroTotal(rs: seq<GroupResult>, i: int, tw: real)
    requires 0 <= i < |rs| && rs[i].total == 0.0 && tw != 0.0
    ensures WeightedSum(rs[..i] + rs[i + 1..], tw) == WeightedSum(rs, tw)
  {
    assert rs == rs[..i] + [rs[i]] + rs[i + 1..];
    WeightedSumAppend(rs[..i] + [rs[i]], rs[i + 1..], tw);
    WeightedSumAppend(rs[..i], [rs[i]], tw);
    WeightedSumAppend(rs[..i], rs[i + 1..], tw);
    assert [rs[i]][..0] == [];
  }

  /** The weights of the groups with a nonzero total, summed. */
  function CountedWeight(rs: seq<GroupResult>): real {
    if rs == [] then 0.0
    else
      var n := |rs| - 1;
      CountedWeight(rs[..n]) + (if rs[n].total == 0.0 then 0.0 else rs[n].weight)
  }

  lemma {:induction false} WeightedSumWithin(rs: seq<GroupResult>, tw: real)
    requires tw > 0.0
    requires forall i :: 0 <= i < |rs| ==> rs[i].weight >= 0.0 && 0.0 <= rs[i].earned && (rs[i].earned <= rs[i].total || rs[i].total == 0.0)
    ensures 0.0 <= WeightedSum(rs, tw) <= CountedWeight(rs) / tw
  {
    if rs != [] {
      var n := |rs| - 1;
      assert forall i :: 0 <= i < n ==> rs[..n][i] == rs[i];
      WeightedSumWithin(rs[..n], tw);
      var r := rs[n];
      assert WeightedSum(rs, tw) == WeightedSum(rs[..n], tw) + Contribution(r, tw);
      if r.total != 0.0 {
        PercentOfWhole(r.earned, r.total);
        var g, s := r.earned / r.total, r.weight / tw;
        assert 0.0 <= g <= 1.0;
        assert 0.0 <= s;
        assert g * s <= s;
        assert (CountedWeight(rs[..n]) + r.weight) / tw == CountedWeight(rs[..n]) / tw + s;
      }
    }
  }

  lemma {:induction false} CountedWithinTotal(rs: seq<GroupResult>)
    requires forall i :: 0 <= i < |rs| ==> rs[i].weight >= 0.0
    ensures 0.0 <= CountedWeight(rs) <= SumWeights(rs)
  {
    if rs != [] {
      var n := |rs| - 1;
      assert forall i :: 0 <= i < n ==> rs[..n][i] == rs[i];
      CountedWithinTotal(rs[..n]);
    }
  }

  /**
   * Percent scheme: with nonnegative weights whose sum is the total weight,
   * and no group earning more than its total, the grade is between 0 and 100.
   * Skipped zero-total groups can only pull it down, never above 100.
   */
  lemma PercentGradeBounded(rs: seq<GroupResult>)
    requires forall i :: 0 <= i < |rs| ==> rs[i].weight >= 0.0 && 0.0 <= rs[i].earned <= rs[i].total
    requires SumWeights(rs) > 0.0
    ensures Grade(Named("percent"), rs, SumWeights(rs)).Some?
    ensures 0.0 <= Grade(Named("percent"), rs, SumWeights(rs)).value <= 100.0
  {
    var tw := SumWeights(rs);
    WeightedSumWithin(rs, tw);
    CountedWithinTotal(rs);
    PercentOfWhole(CountedWeight(rs), tw);
  }

  /** With no qualifying group the points and equal schemes are undefined, while the percent scheme gives 0. */
  lemma NoQualifyingGroups(scheme: Scheme)
    ensures Grade(scheme, [], 0.0) ==
      if scheme == NoScheme || scheme == Named("points") || scheme == Named("equal") then None
      else if scheme == Named("percent") then Some(0.0)
      else Some(Unrecognised)
  {
  }
}

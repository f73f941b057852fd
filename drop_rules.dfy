/**
 * A group's drop rules applied to its sorted candidate list: keep only the
 * highest k, or take everything and subtract the lowest m and the highest n.
 */
module DropRules {
  import opened Wrappers
  import opened SubmissionIndex
  import opened CandidateList
  import opened Sorting

  /** Points earned and points possible, summed over some candidates. */
  datatype Totals = Totals(earned: real, possible: real) {
    function Add(other: Totals): Totals {
      Totals(earned + other.earned, possible + other.possible)
    }
    function Sub(other: Totals): Totals {
      Totals(earned - other.earned, possible - other.possible)
    }
  }

  const Zero := Totals(0.0, 0.0)

  function Of(c: Candidate): Totals {
    Totals(c.earned, c.possible)
  }

  /** Earned and possible points summed over a list, left to right. */
  function Sum(s: seq<Candidate>): Totals {
    if s == [] then Zero
    else
      var n := |s| - 1;
      Sum(s[..n]).Add(Of(s[n]))
  }

  /** A group's drop rules; an absent count is None. */
  datatype GroupRules = GroupRules(
    dropLowest: Option<nat>,
    dropHighest: Option<nat>,
    dropAllBut: Option<nat>,
    neverDrop: set<Id>)

  function CountOrZero(count: Option<nat>): nat {
    if count.Some? then count.value else 0
  }

  /**
   * True when every rule that is applied stays within a list of n candidates.
   * Past these bounds the drop loops index outside the list and the page's
   * script fails with a type error.
   */
  predicate DropCountsInRange(n: nat, rules: GroupRules) {
    if rules.dropAllBut.Some? then rules.dropAllBut.value <= n
    else CountOrZero(rules.dropLowest) <= n && CountOrZero(rules.dropHighest) <= n
  }

  /**
   * The group's totals after dropping, over the candidate list s sorted
   * ascending by ratio: with drop_all_but k the last k entries alone;
   * otherwise everything, minus the first m entries and minus the last n.
   */
  function DropTotals(s: seq<Candidate>, rules: GroupRules): Totals
    requires DropCountsInRange(|s|, rules)
  {
    if rules.dropAllBut.Some? then Sum(s[|s| - rules.dropAllBut.value..])
    else
      var m, h := CountOrZero(rules.dropLowest), CountOrZero(rules.dropHighest);
      Sum(s).Sub(Sum(s[..m])).Sub(Sum(s[|s| - h..]))
  }

  lemma {:induction false} SumAppend(xs: seq<Candidate>, ys: seq<Candidate>)
    ensures Sum(xs + ys) == Sum(xs).Add(Sum(ys))
  {
    if ys == [] {
      assert xs + ys == xs;
    } else {
      var n := |ys| - 1;
      assert (xs + ys)[..|xs| + n] == xs + ys[..n];
      SumAppend(xs, ys[..n]);
    }
  }

  lemma SumSingle(c: Candidate)
    ensures Sum([c]) == Of(c)
  {
    assert [c][..0] == [];
  }

  /** Summing from the right end: Sum(s[i..]) is s[i] plus Sum(s[i + 1..]). */
  lemma SumFromLeft(s: seq<Candidate>, i: int)
    requires 0 <= i < |s|
    ensures Sum(s[i..]) == Of(s[i]).Add(Sum(s[i + 1..]))
  {
    assert s[i..] == [s[i]] + s[i + 1..];
    SumAppend([s[i]], s[i + 1..]);
    SumSingle(s[i]);
  }

  lemma SumPrefixStep(s: seq<Candidate>, i: int)
    requires 0 <= i < |s|
    ensures Sum(s[..i + 1]) == Sum(s[..i]).Add(Of(s[i]))
  {
    assert s[..i + 1][..i] == s[..i];
  }

  /** drop_all_but: adds up the last k entries of the sorted array, from the highest down. */
  method SumHighest(a: array<Candidate>, k: nat) returns (t: Totals)
    requires k <= a.Length
    ensures t == Sum(a[a.Length - k..])
  {
    var n := a.Length;
    var pointsEarned, totalPoints := 0.0, 0.0;
    var i := 0;
    while i < k
      invariant 0 <= i <= k
      invariant Totals(pointsEarned, totalPoints) == Sum(a[n - i..])
    {
      SumFromLeft(a[..], n - 1 - i);
      assert a[..][n - 1 - i..] == a[n - 1 - i..] && a[..][n - i..] == a[n - i..];
      pointsEarned := pointsEarned + a[n - 1 - i].earned;
      totalPoints := totalPoints + a[n - 1 - i].possible;
      i := i + 1;
    }
    t := Totals(pointsEarned, totalPoints);
  }

  /** Adds up every entry of the array. */
  method SumAll(a: array<Candidate>) returns (t: Totals)
    ensures t == Sum(a[..])
  {
    var pointsEarned, totalPoints := 0.0, 0.0;
    var i := 0;
    while i < a.Length
      invariant 0 <= i <= a.Length
      invariant Totals(pointsEarned, totalPoints) == Sum(a[..i])
    {
      SumPrefixStep(a[..], i);
      assert a[..][..i + 1] == a[..i + 1] && a[..][..i] == a[..i];
      pointsEarned := pointsEarned + a[i].earned;
      totalPoints := totalPoints + a[i].possible;
      i := i + 1;
    }
    assert a[..a.Length] == a[..];
    t := Totals(pointsEarned, totalPoints);
  }

  /** drop_lowest: subtracts the first m entries of the sorted array from the running totals. */
  method SubtractLowest(a: array<Candidate>, m: nat, running: Totals) returns (t: Totals)
    requires m <= a.Length
    ensures t == running.Sub(Sum(a[..m]))
  {
    var pointsEarned, totalPoints := running.earned, running.possible;
    var i := 0;
    while i < m
      invariant 0 <= i <= m
      invariant Totals(pointsEarned, totalPoints) == running.Sub(Sum(a[..i]))
    {
      SumPrefixStep(a[..], i);
      assert a[..][..i + 1] == a[..i + 1] && a[..][..i] == a[..i];
      pointsEarned := pointsEarned - a[i].earned;
      totalPoints := totalPoints - a[i].possible;
      i := i + 1;
    }
    t := Totals(pointsEarned, totalPoints);
  }

  /** drop_highest: subtracts the last h entries of the sorted array from the running totals. */
  method SubtractHighest(a: array<Candidate>, h: nat, running: Totals) returns (t: Totals)
    requires h <= a.Length
    ensures t == running.Sub(Sum(a[a.Length - h..]))
  {
    var n := a.Length;
    var pointsEarned, totalPoints := running.earned, running.possible;
    var i := 0;
    while i < h
      invariant 0 <= i <= h
      invariant Totals(pointsEarned, totalPoints) == running.Sub(Sum(a[n - i..]))
    {
      SumFromLeft(a[..], n - 1 - i);
      assert a[..][n - 1 - i..] == a[n - 1 - i..] && a[..][n - i..] == a[n - i..];
      pointsEarned := pointsEarned - a[n - 1 - i].earned;
      totalPoints := totalPoints - a[n - 1 - i].possible;
      i := i + 1;
    }
    t := Totals(pointsEarned, totalPoints);
  }

  /** Applies the group's drop rules to its sorted candidate array, as the page's script does. */
  method ApplyDropRules(a: array<Candidate>, rules: GroupRules) returns (t: Totals)
    requires DropCountsInRange(a.Length, rules)
    ensures t == DropTotals(a[..], rules)
  {
    if rules.dropAllBut.Some? {
      t := SumHighest(a, rules.dropAllBut.value);
    } else {
      t := SumAll(a);
      if rules.dropLowest.Some? {
        t := SubtractLowest(a, rules.dropLowest.value, t);
      } else {
        assert a[..0] == [];
      }
      if rules.dropHighest.Some? {
        t := SubtractHighest(a, rules.dropHighest.value, t);
      } else {
        assert a[a.Length..] == [];
      }
    }
  }

  /** Keeping the k highest is the same as dropping the |s| - k lowest. */
  lemma DropAllButIsDropLowest(s: seq<Candidate>, k: nat, lowest: Option<nat>, highest: Option<nat>, neverDrop: set<Id>)
    requires k <= |s|
    ensures DropCountsInRange(|s|, GroupRules(lowest, highest, Some(k), neverDrop))
    ensures DropCountsInRange(|s|, GroupRules(Some(|s| - k), None, None, neverDrop))
    ensures DropTotals(s, GroupRules(lowest, highest, Some(k), neverDrop)) ==
            DropTotals(s, GroupRules(Some(|s| - k), None, None, neverDrop))
  {
    var m := |s| - k;
    assert s == s[..m] + s[m..];
    SumAppend(s[..m], s[m..]);
    assert s[|s| - 0..] == [];
  }

  /**
   * When the lowest m and the highest h do not overlap, the totals are the
   * sum over the entries between them.
   */
  lemma DropLowestAndHighest(s: seq<Candidate>, rules: GroupRules)
    requires rules.dropAllBut.None?
    requires CountOrZero(rules.dropLowest) + CountOrZero(rules.dropHighest) <= |s|
    ensures DropCountsInRange(|s|, rules)
    ensures DropTotals(s, rules) ==
            Sum(s[CountOrZero(rules.dropLowest)..|s| - CountOrZero(rules.dropHighest)])
  {
    var m, h := CountOrZero(rules.dropLowest), CountOrZero(rules.dropHighest);
    assert s == s[..m] + s[m..|s| - h] + s[|s| - h..];
    SumAppend(s[..m] + s[m..|s| - h], s[|s| - h..]);
    SumAppend(s[..m], s[m..|s| - h]);
  }

  /**
   * When the lowest m and the highest h overlap, the overlapping entries are
   * subtracted twice: the totals are the negated sum over the overlap.
   */
  lemma DropOverlapSubtractsTwice(s: seq<Candidate>, rules: GroupRules)
    requires rules.dropAllBut.None? && DropCountsInRange(|s|, rules)
    requires CountOrZero(rules.dropLowest) + CountOrZero(rules.dropHighest) > |s|
    ensures DropTotals(s, rules) ==
            Zero.Sub(Sum(s[|s| - CountOrZero(rules.dropHighest)..CountOrZero(rules.dropLowest)]))
  {
    var m, h := CountOrZero(rules.dropLowest), CountOrZero(rules.dropHighest);
    var lo, hi := |s| - h, m;
    assert s == s[..lo] + s[lo..hi] + s[hi..];
    assert s[..m] == s[..lo] + s[lo..hi];
    assert s[|s| - h..] == s[lo..hi] + s[hi..];
    SumAppend(s[..lo] + s[lo..hi], s[hi..]);
    SumAppend(s[..lo], s[lo..hi]);
    SumAppend(s[lo..hi], s[hi..]);
  }

  /** With no drop rule the totals are the plain sums over all candidates. */
  lemma NoRulesSumsEverything(s: seq<Candidate>, neverDrop: set<Id>)
    ensures DropCountsInRange(|s|, GroupRules(None, None, None, neverDrop))
    ensures DropTotals(s, GroupRules(None, None, None, neverDrop)) == Sum(s)
  {
    assert s[..0] == [] && s[|s|..] == [];
  }

  lemma {:induction false} SumOfInsert(sorted: seq<Candidate>, x: Candidate)
    ensures Sum(InsertByRatio(sorted, x)) == Sum(sorted).Add(Of(x))
  {
    if sorted != [] {
      var n := |sorted| - 1;
      if sorted[n].ratio > x.ratio {
        SumOfInsert(sorted[..n], x);
        assert InsertByRatio(sorted, x)[..n + 1] == InsertByRatio(sorted[..n], x);
      }
    }
  }

  /** Sorting does not change the sums: the totals without drops do not depend on the order. */
  lemma {:induction false} SumOfSorted(s: seq<Candidate>)
    ensures Sum(SortByRatio(s)) == Sum(s)
  {
    if s != [] {
      var n := |s| - 1;
      SumOfSorted(s[..n]);
      SumOfInsert(SortByRatio(s[..n]), s[n]);
    }
  }

  /** The ratios weighted by points possible, summed: the weighted average's numerator. */
  function WeightedRatioSum(s: seq<Candidate>): real {
    if s == [] then 0.0
    else
      var n := |s| - 1;
      WeightedRatioSum(s[..n]) + s[n].ratio * s[n].possible
  }

  /**
   * For well-formed candidates (ratio is earned over a positive possible), the
   * earned total is the sum of the ratios weighted by points possible, so
   * earned over possible is their weighted average.
   */
  lemma {:induction false} EarnedIsWeightedRatioSum(s: seq<Candidate>)
    requires forall i :: 0 <= i < |s| ==> s[i].possible > 0.0 && s[i].ratio == s[i].earned / s[i].possible
    ensures Sum(s).earned == WeightedRatioSum(s)
  {
    if s != [] {
      var n := |s| - 1;
      EarnedIsWeightedRatioSum(s[..n]);
      assert s[n].ratio * s[n].possible == s[n].earned;
    }
  }
}

/**
 * Scoring every assignment group: candidates, sort, drop rules, and the
 * decision whether a group takes part in the weighting with its weight.
 */
module GroupScorer {
  import opened Wrappers
  import opened SubmissionIndex
  import opened CandidateList
  import opened Sorting
  import opened DropRules

  /** An assignment group with its weight, its drop rules and its assignments in page order. */
  datatype AssignmentGroup = AssignmentGroup(
    id: Id,
    weight: real,
    rules: GroupRules,
    assignments: seq<Assignment>)

  /** Why the computation is abandoned: a drop count that runs past the candidate list. */
  datatype ScoreError = DropCountOutOfRange(groupId: Id)

  /** What is handed to the page for one group: its id and its totals after drops. */
  datatype GroupDisplay = GroupDisplay(groupId: Id, totals: Totals)

  /** A group that takes part in the weighting. */
  datatype GroupResult = GroupResult(weight: real, earned: real, total: real)

  /** The outcome of scoring all groups. */
  datatype Scoring = Scoring(shown: seq<GroupDisplay>, results: seq<GroupResult>, totalWeight: real)

  /**
   * A run abandoned by a group's error, with the displays of the groups
   * already scored: those are on the page before the failure.
   */
  datatype RunError = Aborted(shown: seq<GroupDisplay>, cause: ScoreError)

  predicate GroupWellFormed(g: AssignmentGroup, index: Index) {
    PossiblePositive(g.assignments, index, g.rules.neverDrop)
  }

  predicate AllWellFormed(groups: seq<AssignmentGroup>, index: Index) {
    forall i :: 0 <= i < |groups| ==> GroupWellFormed(groups[i], index)
  }

  /** The group's candidate list after the sort. */
  function RankedCandidates(g: AssignmentGroup, index: Index): seq<Candidate>
    requires GroupWellFormed(g, index)
  {
    SortByRatio(Candidates(g.assignments, index, g.rules.neverDrop))
  }

  /** The group's totals after its drop rules, or the error the drop loops run into. */
  function GroupTotals(g: AssignmentGroup, index: Index): Result<Totals, ScoreError>
    requires GroupWellFormed(g, index)
  {
    var ranked := RankedCandidates(g, index);
    if DropCountsInRange(|ranked|, g.rules) then Ok(DropTotals(ranked, g.rules))
    else Err(DropCountOutOfRange(g.id))
  }

  /** A group takes part in the weighting only if there was some opportunity to earn points. */
  predicate Qualifies(t: Totals) {
    t.possible > 0.0 || t.earned > 0.0
  }

  /** Scores one group: collect the candidates, sort them in place, apply the drop rules. */
  method ScoreGroup(g: AssignmentGroup, index: Index) returns (r: Result<Totals, ScoreError>)
    requires GroupWellFormed(g, index)
    ensures r == GroupTotals(g, index)
  {
    var candidates := CollectCandidates(g.assignments, index, g.rules.neverDrop);
    var a := new Candidate[|candidates|](k requires 0 <= k < |candidates| => candidates[k]);
    assert a[..] == candidates;
    SortCandidates(a);
    if !DropCountsInRange(a.Length, g.rules) {
      return Err(DropCountOutOfRange(g.id));
    }
    var t := ApplyDropRules(a, g.rules);
    return Ok(t);
  }

  /**
   * Folds one more group, with the outcome of scoring it, into the scoring so
   * far: its totals are shown, and it joins the weighting with its weight
   * only if it qualifies.
   */
  function AddGroup(sc: Scoring, g: AssignmentGroup, outcome: Result<Totals, ScoreError>): Result<Scoring, RunError> {
    match outcome
    case Err(e) => Err(Aborted(sc.shown, e))
    case Ok(t) =>
      if Qualifies(t) then
        Ok(Scoring(sc.shown + [GroupDisplay(g.id, t)],
                   sc.results + [GroupResult(g.weight, t.earned, t.possible)],
                   sc.totalWeight + g.weight))
      else
        Ok(Scoring(sc.shown + [GroupDisplay(g.id, t)], sc.results, sc.totalWeight))
  }

  /**
   * One iteration of the loop over the groups, given the outcome of scoring
   * the group: a group without assignments is skipped, the first error sticks.
   */
  function Step(so_far: Result<Scoring, RunError>, g: AssignmentGroup, outcome: Result<Totals, ScoreError>): Result<Scoring, RunError> {
    match so_far
    case Err(e) => Err(e)
    case Ok(sc) =>
      if g.assignments == [] then Ok(sc)
      else AddGroup(sc, g, outcome)
  }

  /** The loop over the groups in page order, each group paired with the outcome of scoring it on its own. */
  function Fold(groups: seq<AssignmentGroup>, outcomes: seq<Result<Totals, ScoreError>>): Result<Scoring, RunError>
    requires |outcomes| == |groups|
  {
    if groups == [] then Ok(Scoring([], [], 0.0))
    else
      var n := |groups| - 1;
      Step(Fold(groups[..n], outcomes[..n]), groups[n], outcomes[n])
  }

  /** The outcome of scoring each group on its own, in page order. */
  function Outcomes(groups: seq<AssignmentGroup>, index: Index): (os: seq<Result<Totals, ScoreError>>)
    requires AllWellFormed(groups, index)
    ensures |os| == |groups|
  {
    if groups == [] then []
    else
      var n := |groups| - 1;
      assert forall i :: 0 <= i < n ==> groups[..n][i] == groups[i];
      Outcomes(groups[..n], index) + [GroupTotals(groups[n], index)]
  }

  /** The outcome at each place is the scoring of the group at that place. */
  lemma {:induction false} OutcomeAt(groups: seq<AssignmentGroup>, index: Index, i: int)
    requires AllWellFormed(groups, index) && 0 <= i < |groups|
    ensures Outcomes(groups, index)[i] == GroupTotals(groups[i], index)
  {
    var n := |groups| - 1;
    if i < n {
      WellFormedPrefix(groups, n, index);
      OutcomeAt(groups[..n], index, i);
    }
  }

  /** All groups scored in page order; the first error abandons the run. */
  function ScoreGroups(groups: seq<AssignmentGroup>, index: Index): Result<Scoring, RunError>
    requires AllWellFormed(groups, index)
  {
    Fold(groups, Outcomes(groups, index))
  }

  /** The loop over the assignment groups, collecting qualifying groups and their total weight. */
  method ScoreAllGroups(groups: seq<AssignmentGroup>, index: Index) returns (r: Result<Scoring, RunError>)
    requires AllWellFormed(groups, index)
    ensures r == ScoreGroups(groups, index)
  {
    ghost var outcomes := Outcomes(groups, index);
    var shown: seq<GroupDisplay> := [];
    var results: seq<GroupResult> := [];
    var totalWeight := 0.0;
    var i := 0;
    while i < |groups|
      invariant 0 <= i <= |groups|
      invariant Fold(groups[..i], outcomes[..i]) == Ok(Scoring(shown, results, totalWeight))
    {
      var g := groups[i];
      FoldExtend(groups, outcomes, i);
      i := i + 1;
      if g.assignments == [] {
        continue;
      }
      var t := ScoreGroup(g, index);
      OutcomeAt(groups, index, i - 1);
      if t.Err? {
        assert outcomes[i - 1] == t;
        assert Fold(groups[..i], outcomes[..i]) == Err(Aborted(shown, t.error));
        ErrorPersists(groups, outcomes, i);
        return Err(Aborted(shown, t.error));
      }
      var totals := t.value;
      if Qualifies(totals) {
        totalWeight := totalWeight + g.weight;
        results := results + [GroupResult(g.weight, totals.earned, totals.possible)];
      }
      shown := shown + [GroupDisplay(g.id, totals)];
    }
    assert groups[..|groups|] == groups && outcomes[..|groups|] == outcomes;
    r := Ok(Scoring(shown, results, totalWeight));
  }

  lemma WellFormedPrefix(groups: seq<AssignmentGroup>, j: int, index: Index)
    requires AllWellFormed(groups, index) && 0 <= j <= |groups|
    ensures AllWellFormed(groups[..j], index)
  {
    assert forall k :: 0 <= k < j ==> groups[..j][k] == groups[k];
  }

  /** One more group extends the loop by one step. */
  lemma FoldExtend(groups: seq<AssignmentGroup>, outcomes: seq<Result<Totals, ScoreError>>, i: int)
    requires |outcomes| == |groups| && 0 <= i < |groups|
    ensures Fold(groups[..i + 1], outcomes[..i + 1]) == Step(Fold(groups[..i], outcomes[..i]), groups[i], outcomes[i])
  {
    assert groups[..i + 1][..i] == groups[..i];
    assert outcomes[..i + 1][..i] == outcomes[..i];
  }

  /** Once a prefix of the groups fails, the whole run fails with the same error. */
  lemma {:induction false} ErrorPersists(groups: seq<AssignmentGroup>, outcomes: seq<Result<Totals, ScoreError>>, j: int)
    requires |outcomes| == |groups| && 0 <= j <= |groups|
    requires Fold(groups[..j], outcomes[..j]).Err?
    ensures Fold(groups, outcomes) == Fold(groups[..j], outcomes[..j])
    decreases |groups| - j
  {
    if j == |groups| {
      assert groups[..j] == groups && outcomes[..j] == outcomes;
    } else {
      FoldExtend(groups, outcomes, j);
      ErrorPersists(groups, outcomes, j + 1);
    }
  }

  /** The weights of the given results, summed. */
  function SumWeights(rs: seq<GroupResult>): real {
    if rs == [] then 0.0
    else
      var n := |rs| - 1;
      SumWeights(rs[..n]) + rs[n].weight
  }

  /** The scoring so far is consistent: its weight is its results' weights summed, and every result qualifies. */
  predicate Consistent(sc: Scoring) {
    && sc.totalWeight == SumWeights(sc.results)
    && forall k :: 0 <= k < |sc.results| ==> sc.results[k].total > 0.0 || sc.results[k].earned > 0.0
  }

  lemma AddGroupKeepsConsistent(sc: Scoring, g: AssignmentGroup, outcome: Result<Totals, ScoreError>)
    requires Consistent(sc)
    ensures AddGroup(sc, g, outcome).Ok? ==> Consistent(AddGroup(sc, g, outcome).value)
  {
    if outcome.Ok? && Qualifies(outcome.value) {
      var t := outcome.value;
      var rs := sc.results + [GroupResult(g.weight, t.earned, t.possible)];
      assert rs[..|rs| - 1] == sc.results;
    }
  }

  /**
   * The total weight is the sum of the weights of the qualifying groups, and
   * every group handed to the weighting had some opportunity to earn points.
   */
  lemma {:induction false} TotalWeightOfQualifying(groups: seq<AssignmentGroup>, outcomes: seq<Result<Totals, ScoreError>>)
    requires |outcomes| == |groups|
    requires Fold(groups, outcomes).Ok?
    ensures Fold(groups, outcomes).value.totalWeight == SumWeights(Fold(groups, outcomes).value.results)
    ensures forall k :: 0 <= k < |Fold(groups, outcomes).value.results| ==>
              var r := Fold(groups, outcomes).value.results[k]; r.total > 0.0 || r.earned > 0.0
  {
    if groups != [] {
      var n := |groups| - 1;
      TotalWeightOfQualifying(groups[..n], outcomes[..n]);
      if groups[n].assignments != [] {
        AddGroupKeepsConsistent(Fold(groups[..n], outcomes[..n]).value, groups[n], outcomes[n]);
      }
    }
  }

  /** The displays of the groups with assignments that were scored, in page order. */
  function Displays(groups: seq<AssignmentGroup>, outcomes: seq<Result<Totals, ScoreError>>): seq<GroupDisplay>
    requires |outcomes| == |groups|
  {
    if groups == [] then []
    else
      var n := |groups| - 1;
      var g, o := groups[n], outcomes[n];
      Displays(groups[..n], outcomes[..n]) +
        (if g.assignments != [] && o.Ok? then [GroupDisplay(g.id, o.value)] else [])
  }

  /** The groups with assignments whose totals qualify, in page order, as handed to the weighting. */
  function QualifyingResults(groups: seq<AssignmentGroup>, outcomes: seq<Result<Totals, ScoreError>>): seq<GroupResult>
    requires |outcomes| == |groups|
  {
    if groups == [] then []
    else
      var n := |groups| - 1;
      var g, o := groups[n], outcomes[n];
      QualifyingResults(groups[..n], outcomes[..n]) +
        (if g.assignments != [] && o.Ok? && Qualifies(o.value) then [GroupResult(g.weight, o.value.earned, o.value.possible)] else [])
  }

  /**
   * A run that succeeds shows every group with assignments and hands on
   * exactly the qualifying ones, in page order, with the sum of their
   * weights as the total weight.
   */
  lemma {:induction false} FoldContents(groups: seq<AssignmentGroup>, outcomes: seq<Result<Totals, ScoreError>>)
    requires |outcomes| == |groups| && Fold(groups, outcomes).Ok?
    ensures Fold(groups, outcomes).value.shown == Displays(groups, outcomes)
    ensures Fold(groups, outcomes).value.results == QualifyingResults(groups, outcomes)
    ensures Fold(groups, outcomes).value.totalWeight == SumWeights(QualifyingResults(groups, outcomes))
  {
    if groups != [] {
      var n := |groups| - 1;
      assert Fold(groups[..n], outcomes[..n]).Ok?;
      FoldContents(groups[..n], outcomes[..n]);
    }
    TotalWeightOfQualifying(groups, outcomes);
  }

  /** Every group with assignments whose totals qualify is among the results, with its weight and totals. */
  lemma {:induction false} QualifyingIsResult(groups: seq<AssignmentGroup>, outcomes: seq<Result<Totals, ScoreError>>, i: int)
    requires |outcomes| == |groups| && Fold(groups, outcomes).Ok?
    requires 0 <= i < |groups| && groups[i].assignments != [] && outcomes[i].Ok? && Qualifies(outcomes[i].value)
    ensures GroupResult(groups[i].weight, outcomes[i].value.earned, outcomes[i].value.possible) in Fold(groups, outcomes).value.results
  {
    var n := |groups| - 1;
    assert Fold(groups[..n], outcomes[..n]).Ok?;
    if i < n {
      assert groups[..n][i] == groups[i] && outcomes[..n][i] == outcomes[i];
      QualifyingIsResult(groups[..n], outcomes[..n], i);
    }
  }

  /** Group i is the first group with assignments whose scoring fails. */
  predicate FirstFailure(groups: seq<AssignmentGroup>, outcomes: seq<Result<Totals, ScoreError>>, i: int)
    requires |outcomes| == |groups|
  {
    && 0 <= i < |groups| && groups[i].assignments != [] && outcomes[i].Err?
    && forall j :: 0 <= j < i && groups[j].assignments != [] ==> outcomes[j].Ok?
  }

  /**
   * A run that fails fails at the first group with assignments whose scoring
   * fails, with that group's error and with the displays of every group with
   * assignments before it.
   */
  lemma {:induction false} FoldAborted(groups: seq<AssignmentGroup>, outcomes: seq<Result<Totals, ScoreError>>)
    requires |outcomes| == |groups| && Fold(groups, outcomes).Err?
    ensures exists i :: FirstFailure(groups, outcomes, i) &&
              Fold(groups, outcomes).error == Aborted(Displays(groups[..i], outcomes[..i]), outcomes[i].error)
  {
    var n := |groups| - 1;
    var init, os := groups[..n], outcomes[..n];
    assert forall j :: 0 <= j < n ==> init[j] == groups[j] && os[j] == outcomes[j];
    if Fold(init, os).Err? {
      FoldAborted(init, os);
      var i :| FirstFailure(init, os, i) && Fold(init, os).error == Aborted(Displays(init[..i], os[..i]), os[i].error);
      assert init[..i] == groups[..i] && os[..i] == outcomes[..i];
      assert FirstFailure(groups, outcomes, i);
    } else {
      FoldContents(init, os);
      FoldFails(init, os);
      assert FirstFailure(groups, outcomes, n);
    }
  }

  /** The loop is abandoned exactly when some group with assignments comes with an error. */
  lemma {:induction false} FoldFails(groups: seq<AssignmentGroup>, outcomes: seq<Result<Totals, ScoreError>>)
    requires |outcomes| == |groups|
    ensures Fold(groups, outcomes).Err? <==>
      exists i :: 0 <= i < |groups| && groups[i].assignments != [] && outcomes[i].Err?
  {
    if groups != [] {
      var n := |groups| - 1;
      var init, os := groups[..n], outcomes[..n];
      FoldFails(init, os);
      if exists i :: 0 <= i < n && init[i].assignments != [] && os[i].Err? {
        var i :| 0 <= i < n && init[i].assignments != [] && os[i].Err?;
        assert groups[i] == init[i] && outcomes[i] == os[i];
      }
      if exists i :: 0 <= i < |groups| && groups[i].assignments != [] && outcomes[i].Err? {
        var i :| 0 <= i < |groups| && groups[i].assignments != [] && outcomes[i].Err?;
        if i < n {
          assert init[i] == groups[i] && os[i] == outcomes[i];
        }
      }
    }
  }

  /** The run is abandoned exactly when some group with assignments has a drop count out of range. */
  lemma ScoreGroupsFails(groups: seq<AssignmentGroup>, index: Index)
    requires AllWellFormed(groups, index)
    ensures ScoreGroups(groups, index).Err? <==>
      exists i :: 0 <= i < |groups| && groups[i].assignments != [] && GroupTotals(groups[i], index).Err?
  {
    var os := Outcomes(groups, index);
    FoldFails(groups, os);
    if exists i :: 0 <= i < |groups| && groups[i].assignments != [] && os[i].Err? {
      var i :| 0 <= i < |groups| && groups[i].assignments != [] && os[i].Err?;
      OutcomeAt(groups, index, i);
    }
    if exists i :: 0 <= i < |groups| && groups[i].assignments != [] && GroupTotals(groups[i], index).Err? {
      var i :| 0 <= i < |groups| && groups[i].assignments != [] && GroupTotals(groups[i], index).Err?;
      OutcomeAt(groups, index, i);
    }
  }

  lemma RemoveBeforeLast<T>(xs: seq<T>, i: int)
    requires 0 <= i < |xs| - 1
    ensures |xs[..i] + xs[i + 1..]| == |xs| - 1
    ensures (xs[..i] + xs[i + 1..])[..|xs| - 2] == xs[..|xs| - 1][..i] + xs[..|xs| - 1][i + 1..]
    ensures (xs[..i] + xs[i + 1..])[|xs| - 2] == xs[|xs| - 1]
  {
    var n := |xs| - 1;
    assert xs[..n][..i] == xs[..i] && xs[..n][i + 1..] == xs[i + 1..n];
    assert xs[i + 1..] == xs[i + 1..n] + [xs[n]];
    assert xs[..i] + xs[i + 1..] == (xs[..n][..i] + xs[..n][i + 1..]) + [xs[n]];
  }

  /** A group without assignments is skipped entirely, whatever its outcome: leaving it out changes nothing. */
  lemma {:induction false} EmptyGroupSkipped(groups: seq<AssignmentGroup>, outcomes: seq<Result<Totals, ScoreError>>, i: int)
    requires |outcomes| == |groups| && 0 <= i < |groups| && groups[i].assignments == []
    ensures Fold(groups[..i] + groups[i + 1..], outcomes[..i] + outcomes[i + 1..]) == Fold(groups, outcomes)
  {
    var n := |groups| - 1;
    if i == n {
      assert groups[..i] + groups[i + 1..] == groups[..n];
      assert outcomes[..i] + outcomes[i + 1..] == outcomes[..n];
    } else {
      EmptyGroupSkipped(groups[..n], outcomes[..n], i);
      RemoveBeforeLast(groups, i);
      RemoveBeforeLast(outcomes, i);
    }
  }

  /** Every result carries the weight of a group with assignments. */
  lemma {:induction false} ResultWeightsFromGroups(groups: seq<AssignmentGroup>, outcomes: seq<Result<Totals, ScoreError>>, k: int)
    requires |outcomes| == |groups| && Fold(groups, outcomes).Ok?
    requires 0 <= k < |Fold(groups, outcomes).value.results|
    ensures exists i :: 0 <= i < |groups| && groups[i].assignments != [] &&
                        Fold(groups, outcomes).value.results[k].weight == groups[i].weight
  {
    var n := |groups| - 1;
    var prev := Fold(groups[..n], outcomes[..n]).value;
    if k < |prev.results| {
      ResultWeightsFromGroups(groups[..n], outcomes[..n], k);
      var i :| 0 <= i < n && groups[..n][i].assignments != [] && prev.results[k].weight == groups[..n][i].weight;
      assert groups[..n][i] == groups[i];
    } else {
      assert groups[n].assignments != [];
    }
  }

  /** Never-drop assignments are not among the ranked candidates, so no drop rule can pick them and they add nothing to the totals. */
  lemma NeverDropNotRanked(g: AssignmentGroup, index: Index, c: Candidate)
    requires GroupWellFormed(g, index)
    requires c in RankedCandidates(g, index)
    ensures c.id !in g.rules.neverDrop
  {
    var s := Candidates(g.assignments, index, g.rules.neverDrop);
    SortPermutes(s);
    assert c in multiset(SortByRatio(s));
    var k :| 0 <= k < |s| && s[k] == c;
    CandidatesSound(g.assignments, index, g.rules.neverDrop, k);
  }

  /** A group whose assignments are all omitted scores zero of zero and does not qualify. */
  lemma AllOmittedScoresZero(g: AssignmentGroup, index: Index)
    requires forall i :: 0 <= i < |g.assignments| ==> g.assignments[i].omitFromFinalGrade
    requires DropCountsInRange(0, g.rules)
    ensures GroupWellFormed(g, index)
    ensures GroupTotals(g, index) == Ok(Zero)
    ensures !Qualifies(Zero)
  {
    var s := Candidates(g.assignments, index, g.rules.neverDrop);
    if s != [] {
      CandidatesSound(g.assignments, index, g.rules.neverDrop, 0);
    }
    assert SortByRatio(s) == [];
    var e: seq<Candidate> := [];
    assert e[..0] == [] && e[0..] == [];
  }

  /** With no drop rule the group's totals are the plain sums over its candidates in page order. */
  lemma NoRulesGroupTotals(g: AssignmentGroup, index: Index)
    requires GroupWellFormed(g, index)
    requires g.rules.dropLowest.None? && g.rules.dropHighest.None? && g.rules.dropAllBut.None?
    ensures GroupTotals(g, index) == Ok(Sum(Candidates(g.assignments, index, g.rules.neverDrop)))
  {
    var s := Candidates(g.assignments, index, g.rules.neverDrop);
    NoRulesSumsEverything(SortByRatio(s), g.rules.neverDrop);
    assert g.rules == GroupRules(None, None, None, g.rules.neverDrop);
    SumOfSorted(s);
  }
}

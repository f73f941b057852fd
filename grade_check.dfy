/**
 * One run of the grade computation on the page's configuration data:
 * index the submissions, score every group, combine the qualifying ones.
 */
module GradeCheck {
  import opened Wrappers
  import opened SubmissionIndex
  import opened CandidateList
  import opened Sorting
  import opened DropRules
  import opened GroupScorer
  import opened GradeAggregator

  /** The configuration data the computation reads. */
  datatype CourseEnv = CourseEnv(submissions: seq<Submission>, groups: seq<AssignmentGroup>, scheme: Scheme)

  /** What the run hands to the page: every scored group's totals and the final grade. */
  datatype Report = Report(shown: seq<GroupDisplay>, grade: Option<real>)

  predicate EnvWellFormed(env: CourseEnv) {
    AllWellFormed(env.groups, IndexOf(env.submissions))
  }

  /** The result of a run: the groups' totals and the grade, or the error that abandons it. */
  function Evaluate(env: CourseEnv): Result<Report, RunError>
    requires EnvWellFormed(env)
  {
    match ScoreGroups(env.groups, IndexOf(env.submissions))
    case Err(e) => Err(e)
    case Ok(sc) => Ok(Report(sc.shown, Grade(env.scheme, sc.results, sc.totalWeight)))
  }

  /** The grade computation, in the order the page's script performs it. */
  method RunGradeCheck(env: CourseEnv) returns (r: Result<Report, RunError>)
    requires EnvWellFormed(env)
    ensures r == Evaluate(env)
  {
    var index := BuildIndex(env.submissions);
    var scored := ScoreAllGroups(env.groups, index);
    if scored.Err? {
      return Err(scored.error);
    }
    var sc := scored.value;
    var grade := CalculateGrade(env.scheme, sc.results, sc.totalWeight);
    r := Ok(Report(sc.shown, grade));
  }

  /**
   * Under the percent scheme, with nonnegative weights and no group earning
   * more than its total, a run that succeeds and has a positive total weight
   * yields a grade between 0 and 100.
   */
  lemma PercentRunBounded(env: CourseEnv)
    requires EnvWellFormed(env) && env.scheme == Named("percent")
    requires Evaluate(env).Ok?
    requires forall i :: 0 <= i < |env.groups| ==> env.groups[i].weight >= 0.0
    requires var rs := ScoreGroups(env.groups, IndexOf(env.submissions)).value.results;
             forall i :: 0 <= i < |rs| ==> 0.0 <= rs[i].earned <= rs[i].total
    requires ScoreGroups(env.groups, IndexOf(env.submissions)).value.totalWeight > 0.0
    ensures Evaluate(env).value.grade.Some?
    ensures 0.0 <= Evaluate(env).value.grade.value <= 100.0
  {
    var index := IndexOf(env.submissions);
    var os := Outcomes(env.groups, index);
    var sc := Fold(env.groups, os).value;
    TotalWeightOfQualifying(env.groups, os);
    forall k | 0 <= k < |sc.results|
      ensures sc.results[k].weight >= 0.0
    {
      ResultWeightsFromGroups(env.groups, os, k);
    }
    PercentGradeBounded(sc.results);
  }

  // ---- Worked scenarios ----

  const A := Candidate(1, 0.8, 8.0, 10.0)
  const B := Candidate(2, 0.4, 4.0, 10.0)
  const C := Candidate(3, 1.0, 10.0, 10.0)

  /** Scores 8, 4 and 10 out of 10 rank as 4, 8, 10. */
  lemma ScenarioRanking()
    ensures SortByRatio([A, B, C]) == [B, A, C]
  {
    assert [A, B, C][..2] == [A, B] && [A, B][..1] == [A] && [A][..0] == [];
    assert SortByRatio([A]) == [A];
    assert [A][..0] == [];
    assert InsertByRatio([A], B) == [B, A];
    assert SortByRatio([A, B]) == [B, A];
    assert [B, A][..1] == [B];
    assert InsertByRatio([B, A], C) == [B, A, C];
  }

  /** Dropping the lowest of the ranked three leaves 18 of 20 points. */
  lemma ScenarioDrop()
    ensures DropTotals([B, A, C], GroupRules(Some(1), None, None, {})) == Totals(18.0, 20.0)
  {
    var ranked := [B, A, C];
    assert ranked[..2] == [B, A] && ranked[..2][..1] == [B] && [B][..0] == [];
    assert Sum([B]) == Totals(4.0, 10.0);
    assert Sum([B, A]) == Totals(12.0, 20.0);
    assert Sum(ranked) == Totals(22.0, 30.0);
    assert ranked[..1] == [B];
    assert ranked[3..] == [];
    assert Sum([]) == Zero;
  }

  const Subs := [Submission(1, Some(8.0), false, "graded"),
                 Submission(2, Some(4.0), false, "graded"),
                 Submission(3, Some(10.0), false, "graded")]

  const Homework := AssignmentGroup(7, 100.0, GroupRules(Some(1), None, None, {}),
                      [Assignment(1, 10.0, false), Assignment(2, 10.0, false), Assignment(3, 10.0, false)])

  lemma ScenarioIndex()
    ensures IndexOf(Subs) == map[1 := Entry(false, Some(8.0), "graded"),
                                 2 := Entry(false, Some(4.0), "graded"),
                                 3 := Entry(false, Some(10.0), "graded")]
  {
    assert Subs[..2] == [Subs[0], Subs[1]] && [Subs[0], Subs[1]][..1] == [Subs[0]] && [Subs[0]][..0] == [];
    assert IndexOf([Subs[0]]) == map[1 := Entry(false, Some(8.0), "graded")];
    assert IndexOf(Subs[..2]) == map[1 := Entry(false, Some(8.0), "graded"), 2 := Entry(false, Some(4.0), "graded")];
  }

  lemma ScenarioCandidates()
    ensures GroupWellFormed(Homework, IndexOf(Subs))
    ensures Candidates(Homework.assignments, IndexOf(Subs), {}) == [A, B, C]
  {
    ScenarioIndex();
    var index := IndexOf(Subs);
    var items := Homework.assignments;
    var x1, x2, x3 := items[0], items[1], items[2];
    assert items[..2] == [x1, x2] && [x1, x2][..1] == [x1] && [x1][..0] == [];
    assert GetAssignmentPoints(index, 1) == Some(8.0);
    assert GetAssignmentPoints(index, 2) == Some(4.0);
    assert GetAssignmentPoints(index, 3) == Some(10.0);
    assert MakeCandidate(x1, 8.0) == A && MakeCandidate(x2, 4.0) == B && MakeCandidate(x3, 10.0) == C;
    assert Candidates([x1], index, {}) == [A];
    assert Candidates([x1, x2], index, {}) == [A, B];
  }

  /** Homework on its own: the 4 is dropped and 18 of 20 points remain. */
  lemma HomeworkTotals()
    ensures GroupWellFormed(Homework, IndexOf(Subs))
    ensures GroupTotals(Homework, IndexOf(Subs)) == Ok(Totals(18.0, 20.0))
  {
    ScenarioCandidates();
    ScenarioRanking();
    ScenarioDrop();
  }

  /** The scoring loop over Homework alone shows 18 of 20 and hands the group on with its weight of 100. */
  lemma HomeworkScoring()
    ensures AllWellFormed([Homework], IndexOf(Subs))
    ensures ScoreGroups([Homework], IndexOf(Subs)) ==
            Ok(Scoring([GroupDisplay(7, Totals(18.0, 20.0))], [GroupResult(100.0, 18.0, 20.0)], 100.0))
  {
    var index := IndexOf(Subs);
    HomeworkTotals();
    var gs := [Homework];
    var t := Totals(18.0, 20.0);
    var empty := Scoring([], [], 0.0);
    assert gs[..0] == [];
    assert Outcomes(gs, index) == [Ok(t)];
    assert Fold(gs, [Ok(t)]) == Step(Ok(empty), Homework, Ok(t));
    assert Homework.assignments != [] && Homework.id == 7 && Homework.weight == 100.0;
    assert Qualifies(t);
    var e1: seq<GroupDisplay>, e2: seq<GroupResult> := [], [];
    assert e1 + [GroupDisplay(7, t)] == [GroupDisplay(7, t)];
    assert e2 + [GroupResult(100.0, 18.0, 20.0)] == [GroupResult(100.0, 18.0, 20.0)];
  }

  /** Three 10-point assignments scoring 8, 4 and 10 with drop_lowest 1: the 4 is dropped, 18 of 20 remain, 90 percent. */
  lemma DropLowestScenario()
    ensures EnvWellFormed(CourseEnv(Subs, [Homework], NoScheme))
    ensures Evaluate(CourseEnv(Subs, [Homework], NoScheme)) ==
            Ok(Report([GroupDisplay(7, Totals(18.0, 20.0))], Some(90.0)))
  {
    HomeworkScoring();
    var rs := [GroupResult(100.0, 18.0, 20.0)];
    assert rs[..0] == [];
    assert SumTotal(rs) == 20.0 && SumEarned(rs) == 18.0;
  }

  /** A quiz group with drop_lowest 1 whose one assignment has no submission yet. */
  const Quiz := AssignmentGroup(8, 50.0, GroupRules(Some(1), None, None, {}), [Assignment(4, 10.0, false)])

  /** With nothing graded the quiz has no candidates, so dropping the lowest one is out of range. */
  lemma UngradedDropLowestFails()
    ensures GroupWellFormed(Quiz, IndexOf(Subs))
    ensures GroupTotals(Quiz, IndexOf(Subs)) == Err(DropCountOutOfRange(8))
  {
    ScenarioIndex();
    assert Quiz.assignments[..0] == [];
    assert GetAssignmentPoints(IndexOf(Subs), 4) == None;
    assert Candidates(Quiz.assignments, IndexOf(Subs), {}) == [];
  }

  /** Homework then the quiz: the run is abandoned at the quiz, with Homework's 18 of 20 already shown. */
  lemma PartialDisplayScenario()
    ensures EnvWellFormed(CourseEnv(Subs, [Homework, Quiz], NoScheme))
    ensures Evaluate(CourseEnv(Subs, [Homework, Quiz], NoScheme)) ==
            Err(Aborted([GroupDisplay(7, Totals(18.0, 20.0))], DropCountOutOfRange(8)))
  {
    HomeworkScoring();
    UngradedDropLowestFails();
    var index := IndexOf(Subs);
    var gs := [Homework, Quiz];
    assert gs[..1] == [Homework];
    assert AllWellFormed(gs, index);
    var os := Outcomes(gs, index);
    assert os == Outcomes([Homework], index) + [Err(DropCountOutOfRange(8))];
    assert os[..1] == Outcomes([Homework], index);
    assert Fold(gs, os) == Step(Fold([Homework], os[..1]), Quiz, os[1]);
  }

  /** Three groups (18 of 20, weight 30), (45 of 50, weight 40), (20 of 20, weight 30) under the percent scheme: 93 percent. */
  lemma PercentScenario()
    ensures Grade(Named("percent"),
                  [GroupResult(30.0, 18.0, 20.0), GroupResult(40.0, 45.0, 50.0), GroupResult(30.0, 20.0, 20.0)],
                  100.0) == Some(93.0)
  {
    var r1, r2, r3 := GroupResult(30.0, 18.0, 20.0), GroupResult(40.0, 45.0, 50.0), GroupResult(30.0, 20.0, 20.0);
    var rs := [r1, r2, r3];
    assert rs[..2] == [r1, r2] && [r1, r2][..1] == [r1] && [r1][..0] == [];
    assert WeightedSum([r1], 100.0) == 0.27;
    assert WeightedSum([r1, r2], 100.0) == 0.63;
    assert WeightedSum(rs, 100.0) == 0.93;
  }

  /** One group with 5 of 10 points and no scheme: 50 percent. */
  lemma PointsScenario(w: real)
    ensures Grade(NoScheme, [GroupResult(w, 5.0, 10.0)], w) == Some(50.0)
  {
    var rs := [GroupResult(w, 5.0, 10.0)];
    assert rs[..0] == [];
    assert SumTotal(rs) == 10.0 && SumEarned(rs) == 5.0;
  }
}

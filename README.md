# Grade aggregation, modelled in Dafny

This project models the grade computation in `grade_unblocked_script.js`. That script reads
the course configuration a grading page embeds for a student (`ENV`) and recomputes the final
grade the page withholds. The computation has three stages:

1. **Submission index.** Each submission is stored under its assignment id, and a later
   submission for the same id overwrites an earlier one. `get_assignment_points` returns a
   score only for a submission that exists, is not excused and has workflow state `"graded"`.
2. **Group scoring.** Each assignment group is scored on its own:
   - a group without assignments is skipped;
   - omitted, unscored and never-drop assignments are left out of the candidate list;
   - the candidates are sorted ascending by earned/possible;
   - the drop rules are applied: `drop_all_but k` keeps the `k` highest, otherwise everything
     is summed and the `drop_lowest` and `drop_highest` entries are subtracted;
   - the group's totals are shown, and a group with some points possible or some points earned
     joins the weighting with its weight.
3. **Aggregation.** The qualifying groups are combined under the weighting scheme:
   - `null` or `"points"`: earned over total;
   - `"equal"`: the mean of the group ratios;
   - `"percent"`: the ratios weighted by each group's share of the total weight, skipping
     groups whose total is zero.
   - An unknown scheme leaves the grade at -1.

Every loop of the grade computation is a Dafny method. Each method's postcondition equates its result with
a recursive specification function, and the properties are lemmas about those functions:

- the index keeps the last submission per id;
- the candidate list is sound and complete;
- the sort is a permutation, is ordered and is stable;
- each drop rule has a closed form;
- a run that succeeds shows every group with assignments and hands on exactly the qualifying
  groups, in page order, with the sum of their weights as the total weight;
- the run fails exactly when some group's drop count runs past its list, and then it reports
  that group's error together with the totals already shown for the groups before it;
- grade bounds hold for each scheme, the equal scheme ignores weights, and the percent scheme is
  invariant under uniform weight scaling;
- worked examples compute 90 and 93 percent.

Numbers are exact `real`s. A result the script would turn into `NaN` or `Infinity` (a division
by zero) is `None`. A drop count that runs past the candidate list makes the script index
`undefined` and throw. The groups before it have already been shown on the page, but no later
group is shown and no grade is computed. Here that is the error `Aborted`, which carries the
displays made so far and the cause `DropCountOutOfRange`. A realistic case is a group with
`drop_lowest` 1 and nothing graded yet (`GradeCheck.UngradedDropLowestFails`).

Three behaviours of the code that the model keeps as written:

- Under the percent scheme with no qualifying group, the loop adds nothing and the grade is 0.
  The grade is not undefined (`GradeAggregator.NoQualifyingGroups`).
- Never-drop assignments are kept off the candidate list, and nothing adds them back. So they
  count neither in the earned points nor in the possible points (`GroupScorer.NeverDropNotRanked`).
- `drop_lowest` and `drop_highest` are each checked only against the list length. When together
  they exceed it, the overlap is subtracted twice (`DropRules.DropOverlapSubtractsTwice`).

## Model

| member | source | states |
|---|---|---|
| SubmissionIndex.BuildIndex | grade_unblocked_script.js:82-94 | the loop's map is the index of all submissions, built in list order |
| SubmissionIndex.IndexKeys | grade_unblocked_script.js:85-94 | an id is in the index exactly when some submission carries that assignment id |
| SubmissionIndex.IndexLastWriteWins | grade_unblocked_script.js:85-94 | the entry for an id holds the excused flag, score and workflow state of the last submission with that id |
| SubmissionIndex.GetAssignmentPoints | grade_unblocked_script.js:30-42 | points are returned exactly when the id is indexed, not excused, graded and scored, and they are the stored score |
| SubmissionIndex.PointsFromSubmissions | grade_unblocked_script.js:30-42 | looked up through the index, the points of an assignment come from its last submission and are absent when that one is excused, ungraded or unscored |
| SubmissionIndex.MissingSubmissionHasNoPoints | grade_unblocked_script.js:31-37 | an assignment with no submission has no points |
| CandidateList.CollectCandidates | grade_unblocked_script.js:110-126 | the pushed list is the candidate list of the group's assignments in page order |
| CandidateList.CandidatesAppend | grade_unblocked_script.js:110-126 | the candidate list of two runs of assignments is the concatenation of their candidate lists |
| CandidateList.ExcludedContributesNothing | grade_unblocked_script.js:111-117 | removing an omitted, unscored or never-drop assignment leaves the candidate list unchanged |
| CandidateList.CandidatesSound | grade_unblocked_script.js:113-124 | every candidate comes from a contributing assignment with its points and its ratio, is not never-drop and has positive points possible |
| CandidateList.CandidatesComplete | grade_unblocked_script.js:113-124 | every contributing assignment appears on the candidate list |
| Sorting.InsertPermutes | grade_unblocked_script.js:130 | one insertion adds exactly the inserted candidate |
| Sorting.SortPermutes | grade_unblocked_script.js:130 | the sorted list is a permutation of the candidate list |
| Sorting.InsertKeepsSorted | grade_unblocked_script.js:130 | inserting into a list ordered by ratio keeps it ordered |
| Sorting.SortIsSorted | grade_unblocked_script.js:130 | the sorted list is ascending by ratio |
| Sorting.InsertStable | grade_unblocked_script.js:130 | an insertion places the new candidate after all earlier candidates with its ratio |
| Sorting.SortIsStable | grade_unblocked_script.js:130 | for every ratio, the candidates with that ratio keep their collection order |
| Sorting.InsertPosition | grade_unblocked_script.js:130 | the inserted candidate lands right after the last entry not above it, with all larger entries after it |
| Sorting.ShiftLarger | grade_unblocked_script.js:130 | the entries above x move one place right and the gap is where x belongs; nothing else changes |
| Sorting.InsertAt | grade_unblocked_script.js:130 | one step of the in-place sort inserts a[i] into the sorted prefix and leaves the rest alone |
| Sorting.SortCandidates | grade_unblocked_script.js:130 | the array ends up as the stable ascending sort of its old contents |
| DropRules.SumHighest | grade_unblocked_script.js:134-137 | the drop_all_but loop sums exactly the last k entries |
| DropRules.SumAll | grade_unblocked_script.js:140-143 | the loop sums every entry |
| DropRules.SubtractLowest | grade_unblocked_script.js:146-151 | the drop_lowest loop subtracts the sum of the first m entries |
| DropRules.SubtractHighest | grade_unblocked_script.js:153-158 | the drop_highest loop subtracts the sum of the last h entries |
| DropRules.ApplyDropRules | grade_unblocked_script.js:132-159 | the drop loops leave the group's totals after its rules, given counts within the list |
| DropRules.DropAllButIsDropLowest | grade_unblocked_script.js:132-151 | drop_all_but k, whatever the other rules, gives the same totals as drop_lowest n-k alone |
| DropRules.DropLowestAndHighest | grade_unblocked_script.js:145-158 | when the lowest m and highest h do not overlap, the totals are the sum over the entries between them |
| DropRules.DropOverlapSubtractsTwice | grade_unblocked_script.js:145-158 | when they overlap, the overlap is subtracted twice and the totals are its negated sum |
| DropRules.NoRulesSumsEverything | grade_unblocked_script.js:139-143 | with no rule the totals are the plain sums over all candidates |
| DropRules.SumOfSorted | grade_unblocked_script.js:130-143 | sorting does not change the sums over the candidates |
| DropRules.EarnedIsWeightedRatioSum | grade_unblocked_script.js:118-123 | the earned sum is the sum of each candidate's ratio times its points possible |
| GroupScorer.ScoreGroup | grade_unblocked_script.js:103-159 | one group's collect, in-place sort and drop loops give the group's totals, or the error when a drop count runs past the list |
| GroupScorer.ScoreAllGroups | grade_unblocked_script.js:100-176 | the loop over the groups yields the shown totals, the qualifying results and the total weight of the group fold, or its first error with the displays made before it |
| GroupScorer.OutcomeAt | grade_unblocked_script.js:100-159 | the outcome the fold uses for each group is that group's own score |
| GroupScorer.ErrorPersists | grade_unblocked_script.js:134-158 | once a group throws, the run ends with that error whatever groups follow |
| GroupScorer.AddGroupKeepsConsistent | grade_unblocked_script.js:161-171 | adding a group keeps the total weight equal to the summed weights of the results, all of which qualify |
| GroupScorer.TotalWeightOfQualifying | grade_unblocked_script.js:161-171 | the total weight is the sum of the weights handed to the aggregation, and every such group had points possible or earned |
| GroupScorer.FoldContents | grade_unblocked_script.js:100-176 | a successful run shows exactly the groups with assignments, hands on exactly the qualifying ones in page order, and its total weight is the sum of their weights |
| GroupScorer.QualifyingIsResult | grade_unblocked_script.js:161-171 | every group with assignments whose totals qualify is among the results, with its weight, earned and possible points |
| GroupScorer.FoldAborted | grade_unblocked_script.js:100-176 | a failed run fails at the first group with assignments that throws, with that group's error and the displays of every group with assignments before it |
| GroupScorer.FoldFails | grade_unblocked_script.js:100-176 | the run fails exactly when some group with assignments fails |
| GroupScorer.ScoreGroupsFails | grade_unblocked_script.js:132-158 | the run fails exactly when some group with assignments has a drop count past its candidate list |
| GroupScorer.EmptyGroupSkipped | grade_unblocked_script.js:101 | leaving out a group without assignments changes nothing |
| GroupScorer.ResultWeightsFromGroups | grade_unblocked_script.js:161-169 | every result carries the weight of a group with assignments |
| GroupScorer.NeverDropNotRanked | grade_unblocked_script.js:106-124 | no never-drop assignment is on the ranked list, so no rule drops or counts it |
| GroupScorer.AllOmittedScoresZero | grade_unblocked_script.js:110-111 | a group whose assignments are all omitted scores 0 of 0 and does not qualify |
| GroupScorer.NoRulesGroupTotals | grade_unblocked_script.js:138-143 | without drop rules a group's totals are the sums over its candidates in page order |
| GradeAggregator.PointsSchemeGrade | grade_unblocked_script.js:182-193 | the points loop gives earned over total times 100, undefined when the total is 0 |
| GradeAggregator.EqualSchemeGrade | grade_unblocked_script.js:194-203 | the equal loop gives the mean ratio times 100, undefined with no groups or a zero total |
| GradeAggregator.PercentSchemeGrade | grade_unblocked_script.js:205-220 | the percent loop gives the weight-share sum of the ratios times 100, skipping zero totals |
| GradeAggregator.CalculateGrade | grade_unblocked_script.js:178-221 | the scheme chooses the formula; null and "points" coincide and an unknown scheme leaves -1 |
| GradeAggregator.SumsWithin | grade_unblocked_script.js:185-191 | with no group above its total, the summed earned points lie between 0 and the summed total |
| GradeAggregator.PointsGradeBounded | grade_unblocked_script.js:182-193 | the points grade is undefined exactly when the total is 0, and otherwise lies in 0..100 |
| GradeAggregator.RatioSumWithin | grade_unblocked_script.js:199-201 | with every ratio in 0..1 the summed ratios lie between 0 and the group count |
| GradeAggregator.EqualGradeBounded | grade_unblocked_script.js:194-203 | with at least one group and every ratio in 0..1, the equal grade is defined and in 0..100 |
| GradeAggregator.RatioSumIgnoresWeights | grade_unblocked_script.js:199-201 | the summed ratios depend only on earned and total points |
| GradeAggregator.EqualIgnoresWeights | grade_unblocked_script.js:194-203 | the equal grade does not depend on any weight |
| GradeAggregator.WeightedSumScaled | grade_unblocked_script.js:208-218 | scaling every weight and the total weight by one factor leaves the weighted sum unchanged |
| GradeAggregator.PercentScaleInvariant | grade_unblocked_script.js:205-220 | the percent grade depends only on the groups' shares of the total weight |
| GradeAggregator.PercentSkipsZeroTotal | grade_unblocked_script.js:210-218 | a group whose total is 0 adds nothing to the weighted sum, though its weight stays in the total weight |
| GradeAggregator.WeightedSumWithin | grade_unblocked_script.js:208-218 | the weighted sum lies between 0 and the weight of the counted groups over the total weight |
| GradeAggregator.CountedWithinTotal | grade_unblocked_script.js:210-218 | the weight of the groups with nonzero total is at most the total weight |
| GradeAggregator.PercentGradeBounded | grade_unblocked_script.js:205-220 | with nonnegative weights summing to the total weight and no group above its total, the percent grade lies in 0..100 |
| GradeAggregator.NoQualifyingGroups | grade_unblocked_script.js:180-221 | with no qualifying group, points and equal are undefined, percent gives 0 and an unknown scheme gives -1 |
| GradeCheck.RunGradeCheck | grade_unblocked_script.js:82-221 | one run indexes the submissions, scores all groups and combines them, or fails with the first group error and the displays already made |
| GradeCheck.PercentRunBounded | grade_unblocked_script.js:96-220 | a successful percent run with nonnegative weights, positive total weight and no group above its total gives a grade in 0..100 |
| GradeCheck.ScenarioIndex | grade_unblocked_script.js:82-94 | three graded submissions index to their scores |
| GradeCheck.ScenarioCandidates | grade_unblocked_script.js:110-126 | three 10-point assignments scoring 8, 4 and 10 give ratios 0.8, 0.4 and 1.0 in page order |
| GradeCheck.ScenarioRanking | grade_unblocked_script.js:130 | the ratios 0.8, 0.4 and 1.0 rank as 0.4, 0.8, 1.0 |
| GradeCheck.ScenarioDrop | grade_unblocked_script.js:139-151 | dropping the lowest of the three leaves 18 of 20 |
| GradeCheck.HomeworkTotals | grade_unblocked_script.js:103-159 | the example group scores 18 of 20 |
| GradeCheck.HomeworkScoring | grade_unblocked_script.js:100-176 | the example group is shown with 18 of 20 and joins the weighting with weight 100 |
| GradeCheck.DropLowestScenario | grade_unblocked_script.js:82-193 | the whole run on the example gives 18 of 20 for the group and a points grade of 90 |
| GradeCheck.UngradedDropLowestFails | grade_unblocked_script.js:110-150 | a group with drop_lowest 1 whose one assignment has no submission has no candidates and fails with a drop count out of range |
| GradeCheck.PartialDisplayScenario | grade_unblocked_script.js:100-176 | the example group followed by that group: the run fails at the second group, with the first group's 18 of 20 already shown |
| GradeCheck.PercentScenario | grade_unblocked_script.js:205-220 | groups at 18/20, 45/50 and 20/20 weighted 30, 40 and 30 give 93 under percent |
| GradeCheck.PointsScenario | grade_unblocked_script.js:182-193 | one group at 5 of 10 gives 50 with no scheme, whatever its weight |

## Left out

- Finding the `ENV` script (`findENVScript`), the `MutationObserver` and the DOM lookups are left out. So are parsing `ENV` (`clean_env`), rendering with `showGroupPoints`, `toFixed` formatting and `console.log`. All of these are I/O. The run's input is the already-parsed `CourseEnv`, and the per-group displays are returned as data (`GroupDisplay`).
- The early returns for a missing `ENV` and for `hide_final_grades` being false are left out. They decide whether the computation runs at all, not what it computes.
- IEEE floating point: sums and divisions are exact reals, without rounding. `NaN` and `Infinity` are not values here; a grade that would be one is `None`, and any other non-finite intermediate value is likewise not modelled.
- Input typing: in the model, scores are present or absent (`null`), `excused` is a boolean, `workflow_state` is a string and drop counts are natural numbers. The model does not cover JavaScript coercions of other value types, such as a rule key that is present but `null`, or a negative or fractional count.
- Points possible: an assignment that reaches the candidate list must have positive points possible (`GroupWellFormed`). The script divides by it, and zero or a negative value would give a non-finite or negative ratio, which this model does not follow.
- Array.prototype.sort is taken to be stable, as ECMAScript requires since 2019. The comparator's subtraction is modelled as a comparison of ratios.
- Sorting.InsertByRatio: its own contract states only the length. Its order, permutation and stability properties are the separate lemmas above.

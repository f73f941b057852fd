/**
 * Collecting a group's drop candidates: every assignment that counts toward
 * the final grade, has a score that counts, and is not protected by the
 * group's never-drop list.
 */
module CandidateList {
  import opened Wrappers
  import opened SubmissionIndex

  /** An assignment of a group, as the page configuration lists it. */
  datatype Assignment = Assignment(id: Id, pointsPossible: real, omitFromFinalGrade: bool)

  /** A scored assignment taking part in ranking and dropping; `ratio` is earned over possible. */
  datatype Candidate = Candidate(id: Id, ratio: real, earned: real, possible: real)

  /** True when the assignment is put on the candidate list. */
  predicate Contributes(a: Assignment, index: Index, neverDrop: set<Id>) {
    && !a.omitFromFinalGrade
    && GetAssignmentPoints(index, a.id).Some?
    && a.id !in neverDrop
  }

  /** Every assignment that reaches the candidate list can be divided by: its points possible are positive. */
  predicate PossiblePositive(assignments: seq<Assignment>, index: Index, neverDrop: set<Id>) {
    forall i :: 0 <= i < |assignments| && Contributes(assignments[i], index, neverDrop) ==>
      assignments[i].pointsPossible > 0.0
  }

  function MakeCandidate(a: Assignment, points: real): Candidate
    requires a.pointsPossible > 0.0
  {
    Candidate(a.id, points / a.pointsPossible, points, a.pointsPossible)
  }

  /** The candidate list, in the order of the group's assignments. */
  function Candidates(assignments: seq<Assignment>, index: Index, neverDrop: set<Id>): seq<Candidate>
    requires PossiblePositive(assignments, index, neverDrop)
  {
    if assignments == [] then []
    else
      var n := |assignments| - 1;
      var a := assignments[n];
      assert forall i :: 0 <= i < n ==> assignments[..n][i] == assignments[i];
      var init := Candidates(assignments[..n], index, neverDrop);
      if Contributes(a, index, neverDrop) then init + [MakeCandidate(a, GetAssignmentPoints(index, a.id).value)]
      else init
  }

  /** Walks the group's assignments, skipping omitted, unscored and never-drop ones and pushing the rest. */
  method CollectCandidates(assignments: seq<Assignment>, index: Index, neverDrop: set<Id>)
    returns (candidates: seq<Candidate>)
    requires PossiblePositive(assignments, index, neverDrop)
    ensures candidates == Candidates(assignments, index, neverDrop)
  {
    candidates := [];
    var i := 0;
    while i < |assignments|
      invariant 0 <= i <= |assignments|
      invariant PossiblePositive(assignments[..i], index, neverDrop)
      invariant candidates == Candidates(assignments[..i], index, neverDrop)
    {
      var a := assignments[i];
      assert assignments[..i + 1][..i] == assignments[..i];
      i := i + 1;
      if a.omitFromFinalGrade {
        continue;
      }
      var points := GetAssignmentPoints(index, a.id);
      if points.None? {
        continue;
      }
      if a.id !in neverDrop {
        candidates := candidates + [MakeCandidate(a, points.value)];
      }
    }
    assert assignments[..|assignments|] == assignments;
  }

  /** The candidates of a concatenation are the candidates of each part, in order. */
  lemma {:induction false} CandidatesAppend(xs: seq<Assignment>, ys: seq<Assignment>, index: Index, neverDrop: set<Id>)
    requires PossiblePositive(xs + ys, index, neverDrop)
    ensures PossiblePositive(xs, index, neverDrop) && PossiblePositive(ys, index, neverDrop)
    ensures Candidates(xs + ys, index, neverDrop) == Candidates(xs, index, neverDrop) + Candidates(ys, index, neverDrop)
  {
    assert forall i :: 0 <= i < |xs| ==> (xs + ys)[i] == xs[i];
    assert forall i :: 0 <= i < |ys| ==> (xs + ys)[|xs| + i] == ys[i];
    if ys != [] {
      var n := |ys| - 1;
      assert (xs + ys)[..|xs| + n] == xs + ys[..n];
      CandidatesAppend(xs, ys[..n], index, neverDrop);
    } else {
      assert xs + ys == xs;
    }
  }

  /**
   * An assignment that is omitted, has no score that counts, or is on the
   * never-drop list changes nothing: the candidate list is the same without it.
   */
  lemma ExcludedContributesNothing(assignments: seq<Assignment>, i: int, index: Index, neverDrop: set<Id>)
    requires 0 <= i < |assignments|
    requires PossiblePositive(assignments, index, neverDrop)
    requires !Contributes(assignments[i], index, neverDrop)
    ensures PossiblePositive(assignments[..i] + assignments[i + 1..], index, neverDrop)
    ensures Candidates(assignments[..i] + assignments[i + 1..], index, neverDrop) ==
            Candidates(assignments, index, neverDrop)
  {
    var pre, x, post := assignments[..i], [assignments[i]], assignments[i + 1..];
    assert assignments == pre + x + post;
    CandidatesAppend(pre + x, post, index, neverDrop);
    CandidatesAppend(pre, x, index, neverDrop);
    assert x[..0] == [];
    assert Candidates(x, index, neverDrop) == [];
    assert PossiblePositive(pre + post, index, neverDrop) by {
      forall k | 0 <= k < |pre + post| && Contributes((pre + post)[k], index, neverDrop)
        ensures (pre + post)[k].pointsPossible > 0.0
      {
        if k < |pre| { assert (pre + post)[k] == assignments[k]; }
        else { assert (pre + post)[k] == assignments[k + 1]; }
      }
    }
    CandidatesAppend(pre, post, index, neverDrop);
  }

  /**
   * Every candidate comes from a contributing assignment of the group: its id
   * is not on the never-drop list, it earned exactly the assignment's counted
   * score, and its ratio is that score over the points possible.
   */
  lemma {:induction false} CandidatesSound(assignments: seq<Assignment>, index: Index, neverDrop: set<Id>, k: int)
    requires PossiblePositive(assignments, index, neverDrop)
    requires 0 <= k < |Candidates(assignments, index, neverDrop)|
    ensures Candidates(assignments, index, neverDrop)[k].id !in neverDrop
    ensures Candidates(assignments, index, neverDrop)[k].possible > 0.0
    ensures exists i ::
              && 0 <= i < |assignments|
              && Contributes(assignments[i], index, neverDrop)
              && Candidates(assignments, index, neverDrop)[k] ==
                   MakeCandidate(assignments[i], GetAssignmentPoints(index, assignments[i].id).value)
  {
    var n := |assignments| - 1;
    var init := assignments[..n];
    assert forall j :: 0 <= j < n ==> init[j] == assignments[j];
    if k < |Candidates(init, index, neverDrop)| {
      CandidatesSound(init, index, neverDrop, k);
      var i :| 0 <= i < |init| && Contributes(init[i], index, neverDrop) &&
        Candidates(init, index, neverDrop)[k] == MakeCandidate(init[i], GetAssignmentPoints(index, init[i].id).value);
      assert assignments[i] == init[i];
    } else {
      assert Contributes(assignments[n], index, neverDrop);
    }
  }

  /** Every contributing assignment appears on the candidate list. */
  lemma {:induction false} CandidatesComplete(assignments: seq<Assignment>, index: Index, neverDrop: set<Id>, i: int)
    requires PossiblePositive(assignments, index, neverDrop)
    requires 0 <= i < |assignments| && Contributes(assignments[i], index, neverDrop)
    ensures MakeCandidate(assignments[i], GetAssignmentPoints(index, assignments[i].id).value)
              in Candidates(assignments, index, neverDrop)
  {
    var n := |assignments| - 1;
    var init := assignments[..n];
    assert forall j :: 0 <= j < n ==> init[j] == assignments[j];
    if i < n {
      CandidatesComplete(init, index, neverDrop, i);
    }
  }
}

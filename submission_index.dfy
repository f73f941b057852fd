/**
 * The submission index: a map from assignment id to the status of the
 * student's submission, and the lookup that decides whether an assignment
 * has a score that counts.
 */
module SubmissionIndex {
  import opened Wrappers

  type Id = int

  /** One raw submission record as the page configuration lists it. */
  datatype Submission = Submission(
    assignmentId: Id,
    score: Option<real>,     // None models a `null` score
    excused: bool,           // an absent flag is normalised to false
    workflowState: string)

  /** What the index keeps per assignment id. */
  datatype Entry = Entry(excused: bool, score: Option<real>, workflowState: string)

  type Index = map<Id, Entry>

  function EntryOf(s: Submission): Entry {
    Entry(s.excused, s.score, s.workflowState)
  }

  /** The index after the submissions have been stored one after another; a later record overwrites an earlier one with the same id. */
  function IndexOf(subs: seq<Submission>): Index
  {
    if subs == [] then map[]
    else
      var last := subs[|subs| - 1];
      IndexOf(subs[..|subs| - 1])[last.assignmentId := EntryOf(last)]
  }

  /** Builds the index with one `set` per submission, in list order. */
  method BuildIndex(subs: seq<Submission>) returns (index: Index)
    ensures index == IndexOf(subs)
  {
    index := map[];
    var i := 0;
    while i < |subs|
      invariant 0 <= i <= |subs|
      invariant index == IndexOf(subs[..i])
    {
      assert subs[..i + 1][..i] == subs[..i];
      index := index[subs[i].assignmentId := EntryOf(subs[i])];
      i := i + 1;
    }
    assert subs[..|subs|] == subs;
  }

  /** True when no submission after position i carries the same assignment id. */
  predicate IsLastFor(subs: seq<Submission>, i: int)
    requires 0 <= i < |subs|
  {
    forall j :: i < j < |subs| ==> subs[j].assignmentId != subs[i].assignmentId
  }

  /** An id is indexed exactly when some submission carries it. */
  lemma {:induction false} IndexKeys(subs: seq<Submission>, id: Id)
    ensures id in IndexOf(subs) <==> exists i :: 0 <= i < |subs| && subs[i].assignmentId == id
  {
    if subs != [] {
      var n := |subs| - 1;
      IndexKeys(subs[..n], id);
      if id in IndexOf(subs[..n]) {
        var i :| 0 <= i < n && subs[..n][i].assignmentId == id;
        assert subs[i].assignmentId == id;
      }
    }
  }

  /** Each indexed id maps to the last submission that carries it: the last write wins. */
  lemma {:induction false} IndexLastWriteWins(subs: seq<Submission>, i: int)
    requires 0 <= i < |subs| && IsLastFor(subs, i)
    ensures subs[i].assignmentId in IndexOf(subs)
    ensures IndexOf(subs)[subs[i].assignmentId] == EntryOf(subs[i])
  {
    var n := |subs| - 1;
    if i < n {
      var init := subs[..n];
      assert subs[n].assignmentId != subs[i].assignmentId;
      assert IsLastFor(init, i) by {
        forall j | i < j < n ensures init[j].assignmentId != init[i].assignmentId {
          assert init[j] == subs[j];
        }
      }
      IndexLastWriteWins(init, i);
    }
  }

  /**
   * The score that counts for an assignment: present only when a submission
   * for the id is indexed, it is not excused, it is in state "graded" and it
   * holds a score.
   */
  function GetAssignmentPoints(index: Index, id: Id): (points: Option<real>)
    ensures points.Some? <==>
      id in index && !index[id].excused && index[id].workflowState == "graded" && index[id].score.Some?
    ensures points.Some? ==> points.value == index[id].score.value
  {
    if id !in index then None
    else if index[id].excused || index[id].workflowState != "graded" then None
    else index[id].score
  }

  /** Looked up through the index, an assignment scores exactly what its last submission says, under the same three conditions. */
  lemma PointsFromSubmissions(subs: seq<Submission>, i: int)
    requires 0 <= i < |subs| && IsLastFor(subs, i)
    ensures GetAssignmentPoints(IndexOf(subs), subs[i].assignmentId) ==
      if subs[i].excused || subs[i].workflowState != "graded" then None else subs[i].score
  {
    IndexLastWriteWins(subs, i);
  }

  /** An id that no submission carries has no score. */
  lemma MissingSubmissionHasNoPoints(subs: seq<Submission>, id: Id)
    requires forall i :: 0 <= i < |subs| ==> subs[i].assignmentId != id
    ensures GetAssignmentPoints(IndexOf(subs), id) == None
  {
    IndexKeys(subs, id);
  }
}

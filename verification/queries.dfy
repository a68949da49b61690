/** Read-only questions the dashboards ask of the two collections:
    `isSubmitted`, `getSubmissionCount`, and the student's pending and
    submitted counters. */
module Queries {
  import opened Wrappers
  import opened Records
  import opened AppState
  import Seqs

  /** `isSubmitted(assignmentId, studentId)`: some submission, any one, pairs
      the two ids. Duplicates are tolerated; only existence matters. */
  function IsSubmitted(subs: seq<Submission>, assignmentId: string, studentId: string): (r: bool)
    ensures r <==> exists i :: 0 <= i < |subs| && subs[i].assignmentId == assignmentId && subs[i].studentId == studentId
    decreases |subs|
  {
    if |subs| == 0 then false
    else
      || (subs[0].assignmentId == assignmentId && subs[0].studentId == studentId)
      || IsSubmitted(subs[1..], assignmentId, studentId)
  }

  /** The filter `(s: Submission) => s.assignmentId === assignmentId`. */
  function RefersTo(assignmentId: string): Submission -> bool {
    (s: Submission) => s.assignmentId == assignmentId
  }

  /** `getSubmissionCount(assignmentId)`: how many submissions, duplicates
      included, reference the assignment. */
  function SubmissionCount(subs: seq<Submission>, assignmentId: string): (r: nat)
    ensures r <= |subs|
    ensures r > 0 <==> exists s :: s in subs && s.assignmentId == assignmentId
  {
    var matching := Seqs.Filter(subs, RefersTo(assignmentId));
    assert |matching| > 0 ==> matching[0] in matching;
    |matching|
  }

  /** Any submission a student made shows up in the assignment's count. */
  lemma SubmittedIsCounted(subs: seq<Submission>, assignmentId: string, studentId: string)
    requires IsSubmitted(subs, assignmentId, studentId)
    ensures SubmissionCount(subs, assignmentId) >= 1
  {
    var i :| 0 <= i < |subs| && subs[i].assignmentId == assignmentId && subs[i].studentId == studentId;
    assert subs[i] in subs;
  }

  /** Appending one submission raises its assignment's count by exactly one
      and leaves every other assignment's count alone. */
  lemma CountAfterAppend(subs: seq<Submission>, s: Submission, assignmentId: string)
    ensures s.assignmentId == assignmentId ==> SubmissionCount(subs + [s], assignmentId) == SubmissionCount(subs, assignmentId) + 1
    ensures s.assignmentId != assignmentId ==> SubmissionCount(subs + [s], assignmentId) == SubmissionCount(subs, assignmentId)
  {
    Seqs.FilterAppend(subs, [s], RefersTo(assignmentId));
    assert Seqs.Filter([s], RefersTo(assignmentId)) == (if s.assignmentId == assignmentId then [s] else []) by {
      assert [s][1..] == [];
    }
  }

  /** Appending a submission marks its pair submitted and keeps every pair
      that was already submitted. */
  lemma SubmittedAfterAppend(subs: seq<Submission>, s: Submission, assignmentId: string, studentId: string)
    ensures IsSubmitted(subs + [s], s.assignmentId, s.studentId)
    ensures IsSubmitted(subs, assignmentId, studentId) ==> IsSubmitted(subs + [s], assignmentId, studentId)
  {
    assert (subs + [s])[|subs|] == s;
    if IsSubmitted(subs, assignmentId, studentId) {
      var i :| 0 <= i < |subs| && subs[i].assignmentId == assignmentId && subs[i].studentId == studentId;
      assert (subs + [s])[i] == subs[i];
    }
  }

  /** The list the student dashboard is given: every assignment when a
      student is logged in, nothing otherwise. */
  function StudentAssignments(st: State): seq<Assignment> {
    if st.session.Some? && st.session.value.role == Student then st.assignments else []
  }

  /** The filters behind the two counters. */
  function Open(subs: seq<Submission>, studentId: string): Assignment -> bool {
    (a: Assignment) => !IsSubmitted(subs, a.id, studentId)
  }

  function Done(subs: seq<Submission>, studentId: string): Assignment -> bool {
    (a: Assignment) => IsSubmitted(subs, a.id, studentId)
  }

  /** The positions of `xs` the student has not submitted, and those they have. */
  function PendingPositions(xs: seq<Assignment>, subs: seq<Submission>, studentId: string): set<int> {
    set i | 0 <= i < |xs| && !IsSubmitted(subs, xs[i].id, studentId)
  }

  function SubmittedPositions(xs: seq<Assignment>, subs: seq<Submission>, studentId: string): set<int> {
    set i | 0 <= i < |xs| && IsSubmitted(subs, xs[i].id, studentId)
  }

  /** `pendingCount`: the student's assignments without a submission of theirs. */
  function PendingCount(st: State): (r: nat)
    ensures r <= |StudentAssignments(st)|
    ensures st.session.None? || st.session.value.role != Student ==> r == 0
    ensures st.session.Some? ==>
      r == |PendingPositions(StudentAssignments(st), st.submissions, st.session.value.user.id)|
  {
    if st.session.None? then 0
    else
      var xs, sid := StudentAssignments(st), st.session.value.user.id;
      var keep := Open(st.submissions, sid);
      Seqs.FilterLengthIs(xs, keep, PendingPositions(xs, st.submissions, sid));
      |Seqs.Filter(xs, keep)|
  }

  /** `submittedCount`: the student's assignments with a submission of theirs. */
  function SubmittedCount(st: State): (r: nat)
    ensures r <= |StudentAssignments(st)|
    ensures st.session.None? || st.session.value.role != Student ==> r == 0
    ensures st.session.Some? ==>
      r == |SubmittedPositions(StudentAssignments(st), st.submissions, st.session.value.user.id)|
  {
    if st.session.None? then 0
    else
      var xs, sid := StudentAssignments(st), st.session.value.user.id;
      var keep := Done(st.submissions, sid);
      Seqs.FilterLengthIs(xs, keep, SubmittedPositions(xs, st.submissions, sid));
      |Seqs.Filter(xs, keep)|
  }

  /** The two counters split the student's list: every assignment is either
      pending or submitted, never both. */
  lemma CountersPartition(st: State)
    ensures PendingCount(st) + SubmittedCount(st) == |StudentAssignments(st)|
  {
    if st.session.Some? {
      var sid := st.session.value.user.id;
      Seqs.FilterComplement(StudentAssignments(st), Done(st.submissions, sid), Open(st.submissions, sid));
    }
  }
}

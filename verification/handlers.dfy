/** The mutation handlers of the application component: create, delete and
    re-date assignments, record submissions, and the two-click confirmation
    in front of a submission. Each changes the tab's in-memory collection
    first and then writes it through the codec. */
module Handlers {
  import opened Wrappers
  import opened Records
  import opened AppState
  import Storage
  import Seqs
  import Queries

  /** The creation guard: a title and a deadline are both required. */
  predicate DraftComplete(d: Draft) {
    d.title != "" && d.deadline != ""
  }

  /** `handleAddAssignment`. An incomplete form only raises an alert. A
      complete one appends exactly one assignment (the form's fields, the
      fresh `id`, the current user as creator), writes the list, and resets
      and closes the form. */
  function AddAssignment(st: State, store: Store, id: string, io: Storage.Io): (r: Outcome)
    requires DraftComplete(st.newAssignment) ==> st.session.Some?
    ensures !DraftComplete(st.newAssignment) ==> r == Outcome(st, store, [], [MissingTitleOrDeadline])
    ensures DraftComplete(st.newAssignment) ==>
      var n := |st.assignments|;
      var d := st.newAssignment;
      && |r.state.assignments| == n + 1
      && r.state.assignments[..n] == st.assignments
      && r.state.assignments[n] == Assignment(id, d.title, d.description, d.deadline, d.driveLink, st.session.value.user.id)
      && r.state == st.(assignments := r.state.assignments, newAssignment := EmptyDraft, showAddAssignment := false)
      && Committed(store, r, AssignmentsKey, AssignmentList(r.state.assignments), io)
    ensures WellKinded(store) ==> WellKinded(r.store)
  {
    if !DraftComplete(st.newAssignment) then Outcome(st, store, [], [MissingTitleOrDeadline])
    else
      var d := st.newAssignment;
      var created := Assignment(id, d.title, d.description, d.deadline, d.driveLink, st.session.value.user.id);
      var updated := st.assignments + [created];
      var o := Outcome(st.(assignments := updated, newAssignment := EmptyDraft, showAddAssignment := false), store, [], []);
      PersistCommits(o, AssignmentsKey, AssignmentList(updated), io);
      assert updated[..|st.assignments|] == st.assignments;
      Persist(o, AssignmentsKey, AssignmentList(updated), io)
  }

  /** The filters `a => a.id !== id` and `s => s.assignmentId !== id`. */
  function KeepAssignment(id: string): Assignment -> bool {
    (a: Assignment) => a.id != id
  }

  function KeepSubmission(id: string): Submission -> bool {
    (s: Submission) => s.assignmentId != id
  }

  /** The store after the two independent writes of a delete: each key holds
      its new list exactly when its own write was accepted. */
  ghost predicate DeleteStored(store: Store, after: Store, assignments: seq<Assignment>, submissions: seq<Submission>,
                               io1: Storage.Io, io2: Storage.Io)
  {
    && (io1.writeOk ==> Storage.Get(after, AssignmentsKey).value == Some(AssignmentList(assignments)))
    && (!io1.writeOk ==> Storage.SameAt(after, store, AssignmentsKey))
    && (io2.writeOk ==> Storage.Get(after, SubmissionsKey).value == Some(SubmissionList(submissions)))
    && (!io2.writeOk ==> Storage.SameAt(after, store, SubmissionsKey))
    && forall k :: k != AssignmentsKey && k != SubmissionsKey ==> Storage.SameAt(after, store, k)
  }

  /** `handleDeleteAssignment`. Declined, nothing happens. Confirmed, the
      assignment and every submission referencing it are gone, everything
      else is kept, and the two lists are written one after the other; a
      refused write leaves its own key as it was. */
  function DeleteAssignment(st: State, store: Store, id: string, confirmed: bool, io1: Storage.Io, io2: Storage.Io): (r: Outcome)
    ensures !confirmed ==> r == Outcome(st, store, [], [])
    ensures confirmed ==>
      && (forall a :: a in r.state.assignments <==> a in st.assignments && a.id != id)
      && (forall s :: s in r.state.submissions <==> s in st.submissions && s.assignmentId != id)
      && Seqs.SelectsInOrder(r.state.assignments, st.assignments, KeepAssignment(id))
      && Seqs.SelectsInOrder(r.state.submissions, st.submissions, KeepSubmission(id))
      && |r.state.submissions| == |st.submissions| - Queries.SubmissionCount(st.submissions, id)
      && r.state == st.(assignments := r.state.assignments, submissions := r.state.submissions)
      && DeleteStored(store, r.store, r.state.assignments, r.state.submissions, io1, io2)
      && r.sent == (if io1.writeOk && io1.channelOk then [Storage.Message(AssignmentsKey, AssignmentList(r.state.assignments))] else [])
                 + (if io2.writeOk && io2.channelOk then [Storage.Message(SubmissionsKey, SubmissionList(r.state.submissions))] else [])
      && r.alerts == (if io1.writeOk && io1.channelOk then [] else [StorageError])
                   + (if io2.writeOk && io2.channelOk then [] else [StorageError])
    ensures WellKinded(store) ==> WellKinded(r.store)
  {
    if !confirmed then Outcome(st, store, [], [])
    else WriteBoth(RemoveAssignment(st, id), store, io1, io2)
  }

  /** The storage half of a confirmed delete: both lists of `st` are written,
      the assignments first, each write independent of the other. */
  function WriteBoth(st: State, store: Store, io1: Storage.Io, io2: Storage.Io): (r: Outcome)
    ensures r.state == st
    ensures DeleteStored(store, r.store, st.assignments, st.submissions, io1, io2)
    ensures r.sent == (if io1.writeOk && io1.channelOk then [Storage.Message(AssignmentsKey, AssignmentList(st.assignments))] else [])
                    + (if io2.writeOk && io2.channelOk then [Storage.Message(SubmissionsKey, SubmissionList(st.submissions))] else [])
    ensures r.alerts == (if io1.writeOk && io1.channelOk then [] else [StorageError])
                      + (if io2.writeOk && io2.channelOk then [] else [StorageError])
    ensures WellKinded(store) ==> WellKinded(r.store)
  {
    var o1 := Outcome(st, store, [], []);
    PersistCommits(o1, AssignmentsKey, AssignmentList(st.assignments), io1);
    var p1 := Persist(o1, AssignmentsKey, AssignmentList(st.assignments), io1);
    var o2 := Outcome(st, p1.store, [], []);
    PersistCommits(o2, SubmissionsKey, SubmissionList(st.submissions), io2);
    var p2 := Persist(o2, SubmissionsKey, SubmissionList(st.submissions), io2);
    assert Storage.SameAt(p2.store, p1.store, AssignmentsKey);
    assert Storage.Get(p2.store, AssignmentsKey).value == Storage.Get(p1.store, AssignmentsKey).value;
    Outcome(st, p2.store, p1.sent + p2.sent, p1.alerts + p2.alerts)
  }

  /** The in-memory half of a confirmed delete: the assignment and the
      submissions that reference it are dropped, the rest kept in order. */
  function RemoveAssignment(st: State, id: string): (r: State)
    ensures forall a :: a in r.assignments <==> a in st.assignments && a.id != id
    ensures forall s :: s in r.submissions <==> s in st.submissions && s.assignmentId != id
    ensures Seqs.SelectsInOrder(r.assignments, st.assignments, KeepAssignment(id))
    ensures Seqs.SelectsInOrder(r.submissions, st.submissions, KeepSubmission(id))
    ensures |r.submissions| == |st.submissions| - Queries.SubmissionCount(st.submissions, id)
    ensures r == st.(assignments := r.assignments, submissions := r.submissions)
  {
    Seqs.FilterSelects(st.assignments, KeepAssignment(id));
    Seqs.FilterSelects(st.submissions, KeepSubmission(id));
    DeleteCountsReferences(st.submissions, id);
    st.(assignments := Seqs.Filter(st.assignments, KeepAssignment(id)),
        submissions := Seqs.Filter(st.submissions, KeepSubmission(id)))
  }

  /** Dropping the submissions of `id` removes exactly as many as refer to it. */
  lemma {:induction false} DeleteCountsReferences(subs: seq<Submission>, id: string)
    ensures |Seqs.Filter(subs, KeepSubmission(id))| == |subs| - Queries.SubmissionCount(subs, id)
  {
    if |subs| != 0 {
      DeleteCountsReferences(subs[1..], id);
    }
  }

  /** A confirmed delete keeps the surviving assignments in their original order. */
  lemma DeleteKeepsOrder(st: State, store: Store, id: string, io1: Storage.Io, io2: Storage.Io, i: nat, j: nat)
    requires i < j < |st.assignments|
    requires st.assignments[i].id != id && st.assignments[j].id != id
    ensures var kept := DeleteAssignment(st, store, id, true, io1, io2).state.assignments;
            exists p, q :: 0 <= p < q < |kept| && kept[p] == st.assignments[i] && kept[q] == st.assignments[j]
  {
    var xs, keep := st.assignments, KeepAssignment(id);
    assert DeleteAssignment(st, store, id, true, io1, io2).state.assignments == Seqs.Filter(xs, keep);
    Seqs.FilterPosition(xs, keep, i);
    Seqs.FilterPosition(xs, keep, j);
    Seqs.FilterPrefixGrows(xs, keep, i, j);
  }

  /** Deleting an assignment that was just created, under an id no existing
      assignment or submission uses, restores both collections. */
  lemma DeleteUndoesAdd(st: State, store: Store, id: string, io: Storage.Io, io1: Storage.Io, io2: Storage.Io)
    requires DraftComplete(st.newAssignment) && st.session.Some?
    requires forall a :: a in st.assignments ==> a.id != id
    requires forall s :: s in st.submissions ==> s.assignmentId != id
    ensures var added := AddAssignment(st, store, id, io);
            var deleted := DeleteAssignment(added.state, added.store, id, true, io1, io2);
            deleted.state.assignments == st.assignments && deleted.state.submissions == st.submissions
  {
    var added := AddAssignment(st, store, id, io);
    var n := |st.assignments|;
    assert added.state.assignments == st.assignments + [added.state.assignments[n]];
    Seqs.FilterAppend(st.assignments, [added.state.assignments[n]], KeepAssignment(id));
    Seqs.FilterKeepsAll(st.assignments, KeepAssignment(id));
    assert Seqs.Filter([added.state.assignments[n]], KeepAssignment(id)) == [];
    Seqs.FilterKeepsAll(st.submissions, KeepSubmission(id));
  }

  /** `handleSubmitAssignment`. A non-PDF file, then an oversized one, is
      refused with an alert and nothing changes. Otherwise exactly one
      submission is appended (no duplicate check) for the current user, with
      the file's fields and content when there is a file; the list is written
      and the pending confirmation is cleared. */
  function SubmitAssignment(st: State, store: Store, assignmentId: string, file: Option<FileInput>,
                            id: string, submittedAt: string, dataUrl: string, io: Storage.Io): (r: Outcome)
    requires FileOk(file) ==> st.session.Some?
    ensures file.Some? && file.value.mediaType != PdfType ==> r == Outcome(st, store, [], [OnlyPdf])
    ensures file.Some? && file.value.mediaType == PdfType && file.value.size > MaxFileSize ==>
      r == Outcome(st, store, [], [FileTooLarge])
    ensures FileOk(file) ==>
      var n := |st.submissions|;
      && |r.state.submissions| == n + 1
      && r.state.submissions[..n] == st.submissions
      && r.state.submissions[n].id == id
      && r.state.submissions[n].assignmentId == assignmentId
      && r.state.submissions[n].studentId == st.session.value.user.id
      && r.state.submissions[n].submittedAt == submittedAt
      && (file.None? ==> r.state.submissions[n].file.None?)
      && (file.Some? ==>
            && r.state.submissions[n].file == Some(Attachment(file.value.name, file.value.size, file.value.mediaType, dataUrl))
            && r.state.submissions[n].file.value.fileType == PdfType
            && r.state.submissions[n].file.value.fileSize <= MaxFileSize)
      && r.state == st.(submissions := r.state.submissions, confirmSubmit := None)
      && Committed(store, r, SubmissionsKey, SubmissionList(r.state.submissions), io)
    ensures WellKinded(store) ==> WellKinded(r.store)
  {
    if file.Some? && FileAlert(file.value).Some? then Outcome(st, store, [], [FileAlert(file.value).value])
    else
      var attachment := if file.Some? then Some(Attachment(file.value.name, file.value.size, file.value.mediaType, dataUrl)) else None;
      var submission := Submission(id, assignmentId, st.session.value.user.id, submittedAt, attachment);
      var updated := st.submissions + [submission];
      var o := Outcome(st.(submissions := updated, confirmSubmit := None), store, [], []);
      PersistCommits(o, SubmissionsKey, SubmissionList(updated), io);
      assert updated[..|st.submissions|] == st.submissions;
      Persist(o, SubmissionsKey, SubmissionList(updated), io)
  }

  /** After an accepted submission the student's pair reads as submitted and
      the assignment's count has grown by exactly one. */
  lemma SubmitMarksSubmitted(st: State, store: Store, assignmentId: string, file: Option<FileInput>,
                             id: string, submittedAt: string, dataUrl: string, io: Storage.Io)
    requires FileOk(file) && st.session.Some?
    ensures var after := SubmitAssignment(st, store, assignmentId, file, id, submittedAt, dataUrl, io).state.submissions;
            && Queries.IsSubmitted(after, assignmentId, st.session.value.user.id)
            && Queries.SubmissionCount(after, assignmentId) == Queries.SubmissionCount(st.submissions, assignmentId) + 1
  {
    var after := SubmitAssignment(st, store, assignmentId, file, id, submittedAt, dataUrl, io).state.submissions;
    var n := |st.submissions|;
    assert after == st.submissions + [after[n]];
    Queries.SubmittedAfterAppend(st.submissions, after[n], assignmentId, st.session.value.user.id);
    Queries.CountAfterAppend(st.submissions, after[n], assignmentId);
  }

  /** Nothing stops a second submission for a pair already submitted: it is
      appended all the same and counted again. */
  lemma ResubmissionAppends(st: State, store: Store, assignmentId: string, file: Option<FileInput>,
                            id: string, submittedAt: string, dataUrl: string, io: Storage.Io)
    requires FileOk(file) && st.session.Some?
    requires Queries.IsSubmitted(st.submissions, assignmentId, st.session.value.user.id)
    ensures var after := SubmitAssignment(st, store, assignmentId, file, id, submittedAt, dataUrl, io).state.submissions;
            && |after| == |st.submissions| + 1
            && Queries.SubmissionCount(after, assignmentId) >= 2
  {
    SubmitMarksSubmitted(st, store, assignmentId, file, id, submittedAt, dataUrl, io);
    Queries.SubmittedIsCounted(st.submissions, assignmentId, st.session.value.user.id);
  }

  /** `handleConfirmSubmit`: the first click on an assignment only arms the
      confirmation; a click on the armed assignment performs the submit. */
  function ConfirmSubmit(st: State, store: Store, assignmentId: string, file: Option<FileInput>,
                         id: string, submittedAt: string, dataUrl: string, io: Storage.Io): (r: Outcome)
    requires st.confirmSubmit == Some(assignmentId) && FileOk(file) ==> st.session.Some?
    ensures st.confirmSubmit != Some(assignmentId) ==>
      r == Outcome(st.(confirmSubmit := Some(assignmentId)), store, [], [])
    ensures st.confirmSubmit == Some(assignmentId) ==>
      r == SubmitAssignment(st, store, assignmentId, file, id, submittedAt, dataUrl, io)
    ensures st.confirmSubmit == Some(assignmentId) && FileOk(file) ==>
      r.state.confirmSubmit.None? && |r.state.submissions| == |st.submissions| + 1
    ensures st.confirmSubmit == Some(assignmentId) && !FileOk(file) ==>
      r.state == st && r.store == store
  {
    if st.confirmSubmit == Some(assignmentId) then
      SubmitAssignment(st, store, assignmentId, file, id, submittedAt, dataUrl, io)
    else
      Outcome(st.(confirmSubmit := Some(assignmentId)), store, [], [])
  }

  /** The two-step confirmation: from any other confirmation state, the first
      click records nothing and arms the assignment; the second click with an
      acceptable file records exactly one submission and disarms. */
  lemma TwoClicksSubmitOnce(st: State, store: Store, assignmentId: string, file: Option<FileInput>,
                            id: string, submittedAt: string, dataUrl: string, io: Storage.Io)
    requires st.confirmSubmit != Some(assignmentId)
    requires FileOk(file) && st.session.Some?
    ensures var first := ConfirmSubmit(st, store, assignmentId, file, id, submittedAt, dataUrl, io);
            var second := ConfirmSubmit(first.state, first.store, assignmentId, file, id, submittedAt, dataUrl, io);
            && first.state.submissions == st.submissions
            && first.state.confirmSubmit == Some(assignmentId)
            && |second.state.submissions| == |st.submissions| + 1
            && second.state.submissions[|st.submissions|].assignmentId == assignmentId
            && second.state.confirmSubmit.None?
  {
  }

  /** The assignments with every `id` match re-dated to `deadline`
      (`assignments.map(a => a.id === id ? {...a, deadline} : a)`). */
  function WithDeadline(xs: seq<Assignment>, id: string, deadline: string): (r: seq<Assignment>)
    ensures |r| == |xs|
    ensures forall i :: 0 <= i < |xs| ==> r[i] == if xs[i].id == id then xs[i].(deadline := deadline) else xs[i]
    decreases |xs|
  {
    if |xs| == 0 then []
    else [if xs[0].id == id then xs[0].(deadline := deadline) else xs[0]] + WithDeadline(xs[1..], id, deadline)
  }

  /** `handleSaveDeadline`. An empty deadline only raises an alert. Otherwise
      every assignment with the id gets the new deadline and nothing else
      about it changes, all other assignments stay as they are, the list is
      written, and the editor is closed. */
  function SaveDeadline(st: State, store: Store, id: string, io: Storage.Io): (r: Outcome)
    ensures st.tempDeadline == "" ==> r == Outcome(st, store, [], [MissingDeadline])
    ensures st.tempDeadline != "" ==>
      && |r.state.assignments| == |st.assignments|
      && (forall i :: 0 <= i < |st.assignments| && st.assignments[i].id == id ==>
            && r.state.assignments[i].deadline == st.tempDeadline
            && r.state.assignments[i].(deadline := st.assignments[i].deadline) == st.assignments[i])
      && (forall i :: 0 <= i < |st.assignments| && st.assignments[i].id != id ==>
            r.state.assignments[i] == st.assignments[i])
      && r.state == st.(assignments := r.state.assignments, editingId := None, tempDeadline := "")
      && Committed(store, r, AssignmentsKey, AssignmentList(r.state.assignments), io)
    ensures WellKinded(store) ==> WellKinded(r.store)
  {
    if st.tempDeadline == "" then Outcome(st, store, [], [MissingDeadline])
    else
      var updated := WithDeadline(st.assignments, id, st.tempDeadline);
      var o := Outcome(st.(assignments := updated, editingId := None, tempDeadline := ""), store, [], []);
      PersistCommits(o, AssignmentsKey, AssignmentList(updated), io);
      Persist(o, AssignmentsKey, AssignmentList(updated), io)
  }

  /** Re-dating is idempotent: saving the same deadline twice is saving it once. */
  lemma {:induction false} WithDeadlineIdempotent(xs: seq<Assignment>, id: string, deadline: string)
    ensures WithDeadline(WithDeadline(xs, id, deadline), id, deadline) == WithDeadline(xs, id, deadline)
  {
    var once := WithDeadline(xs, id, deadline);
    var twice := WithDeadline(once, id, deadline);
    assert forall i :: 0 <= i < |xs| ==> twice[i] == once[i];
  }

  /** `handleCancelEdit`: closes the deadline editor and drops the typed date. */
  function CancelEdit(st: State): (r: State)
    ensures r.editingId.None? && r.tempDeadline == ""
    ensures r.assignments == st.assignments && r.submissions == st.submissions
    ensures r == st.(editingId := r.editingId, tempDeadline := r.tempDeadline)
  {
    st.(editingId := None, tempDeadline := "")
  }

  /** After a cancel, pressing save changes nothing: the typed date is gone,
      so the save is refused. */
  lemma SaveAfterCancelRefused(st: State, store: Store, id: string, io: Storage.Io)
    ensures SaveDeadline(CancelEdit(st), store, id, io) == Outcome(CancelEdit(st), store, [], [MissingDeadline])
  {
  }
}

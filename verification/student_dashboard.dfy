/** The student dashboard's own state (the open assignment and the picked
    file) and its rules: the file-picker guard, the modal's submit button,
    and how each assignment's status is labelled and highlighted. Whether a
    deadline has passed is an input: the clock is not modelled. */
module StudentDashboard {
  import opened Wrappers
  import opened Records
  import Queries

  /** The assignment whose modal is open, and the file picked in it. */
  datatype Modal = Modal(selected: Option<Assignment>, file: Option<FileInput>)

  const Closed: Modal := Modal(None, None)

  /** `handleViewAssignment`: opens `a` with no file picked. */
  function ViewAssignment(m: Modal, a: Assignment): (r: Modal)
    ensures r.selected == Some(a) && r.file.None?
  {
    Modal(Some(a), None)
  }

  /** `handleCloseModal`: nothing open, nothing picked. */
  function CloseModal(m: Modal): (r: Modal)
    ensures r.selected.None? && r.file.None?
  {
    Closed
  }

  /** The modal after a pick, and the alert shown if the pick was refused. */
  datatype Picked = Picked(modal: Modal, alert: Option<Alert>)

  /** `handleFileChange` with `files[0]` as `picked` (`None` when the dialog
      was dismissed). A non-PDF, then an oversized file, is refused and the
      previous pick stays; anything else, including no file, becomes the pick. */
  function FileChange(m: Modal, picked: Option<FileInput>): (r: Picked)
    ensures picked.Some? && picked.value.mediaType != PdfType ==> r == Picked(m, Some(OnlyPdf))
    ensures picked.Some? && picked.value.mediaType == PdfType && picked.value.size > MaxFileSize ==>
      r == Picked(m, Some(FileTooLarge))
    ensures FileOk(picked) ==> r == Picked(m.(file := picked), None)
    ensures r.modal.file.Some? ==> FileOk(r.modal.file) || r.modal.file == m.file
  {
    if picked.Some? && FileAlert(picked.value).Some? then Picked(m, FileAlert(picked.value))
    else Picked(m.(file := picked), None)
  }

  /** The 2 MiB boundary as the picker sees it: a PDF of exactly 2 MiB becomes
      the pick, one byte more is refused and the pick is kept. */
  lemma PickerBoundary(m: Modal, name: string)
    ensures FileChange(m, Some(FileInput(name, 2097152, PdfType))).modal.file == Some(FileInput(name, 2097152, PdfType))
    ensures FileChange(m, Some(FileInput(name, 2097153, PdfType))) == Picked(m, Some(FileTooLarge))
  {
  }

  /** A call of `onConfirmSubmit(assignmentId, file)`. */
  datatype Call = Call(assignmentId: string, file: FileInput)

  /** What the modal's submit button does: the call it makes, or the alert it shows. */
  datatype Press = Press(call: Option<Call>, alert: Option<Alert>)

  /** `handleSubmitFromModal`: with no file picked it only alerts; with one it
      hands the assignment id and that file to the confirmation handler,
      exactly once, and shows nothing. */
  function SubmitFromModal(m: Modal, assignmentId: string): (r: Press)
    ensures m.file.None? ==> r.call.None? && r.alert == Some(NoFileSelected)
    ensures m.file.Some? ==> r.call == Some(Call(assignmentId, m.file.value)) && r.alert.None?
  {
    if m.file.None? then Press(None, Some(NoFileSelected))
    else Press(Some(Call(assignmentId, m.file.value)), None)
  }

  /** A pick keeps a valid modal valid, so every file the modal hands on has
      passed the picker's guard and the submit handler's own guard never
      refuses it. */
  lemma HandedFilesAreValid(m: Modal, picked: Option<FileInput>, assignmentId: string)
    requires FileOk(m.file)
    ensures FileOk(FileChange(m, picked).modal.file)
    ensures var press := SubmitFromModal(FileChange(m, picked).modal, assignmentId);
            press.call.Some? ==> FileOk(Some(press.call.value.file))
  {
  }

  /** Opening resets the pick; closing makes the submit button only alert. */
  lemma ModalLifecycle(m: Modal, a: Assignment, assignmentId: string)
    ensures SubmitFromModal(ViewAssignment(m, a), assignmentId) == Press(None, Some(NoFileSelected))
    ensures SubmitFromModal(CloseModal(m), assignmentId) == Press(None, Some(NoFileSelected))
    ensures CloseModal(ViewAssignment(m, a)) == Closed
  {
  }

  datatype Status = Submitted | Overdue | Pending

  /** The status column: submitted wins over overdue, which wins over pending. */
  function StatusLabel(submitted: bool, overdue: bool): (r: Status)
    ensures r == Submitted <==> submitted
    ensures r == Overdue <==> !submitted && overdue
    ensures r == Pending <==> !submitted && !overdue
  {
    if submitted then Submitted else if overdue then Overdue else Pending
  }

  /** The red due date and the overdue warning of the card and table views. */
  predicate OverdueHighlight(submitted: bool, overdue: bool) {
    overdue && !submitted
  }

  /** The card and table highlight is shown exactly when the label reads Overdue. */
  lemma HighlightMatchesLabel(submitted: bool, overdue: bool)
    ensures OverdueHighlight(submitted, overdue) <==> StatusLabel(submitted, overdue) == Overdue
  {
  }

  /** The modal's two flags. */
  datatype Flags = Flags(submitted: bool, overdue: bool)

  /** The `submitted` and `overdue` flags of the open modal; both are false
      when no assignment is open. `isOverdue` stands for the date check. */
  function ModalFlags(m: Modal, subs: seq<Submission>, studentId: string, isOverdue: string -> bool): (r: Flags)
    ensures m.selected.None? ==> r == Flags(false, false)
    ensures m.selected.Some? ==>
      && (r.submitted <==> exists s :: s in subs && s.assignmentId == m.selected.value.id && s.studentId == studentId)
      && r.overdue == isOverdue(m.selected.value.deadline)
  {
    if m.selected.None? then Flags(false, false)
    else
      var a := m.selected.value;
      var submitted := Queries.IsSubmitted(subs, a.id, studentId);
      assert submitted ==> exists i :: 0 <= i < |subs| && subs[i] in subs && subs[i].assignmentId == a.id && subs[i].studentId == studentId;
      Flags(submitted, isOverdue(a.deadline))
  }
}

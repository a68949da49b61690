/** How the instructor's deadline editor is entered. The edit button of the
    instructor dashboard only copies the current deadline into the typed
    date; nothing anywhere assigns an assignment id to `editingId`, so the
    editor, which is shown only for `editingId == id`, never opens. The
    as-written button is modelled next to the evidently intended one. */
module DeadlineEditor {
  import opened Wrappers
  import opened Records
  import opened AppState
  import Storage
  import Handlers

  /** `onEditDeadlineChange(value)`, i.e. `setTempDeadline`: the typed date. */
  function EditDeadlineChange(st: State, value: string): (r: State)
    ensures r.tempDeadline == value
    ensures r.(tempDeadline := st.tempDeadline) == st
  {
    st.(tempDeadline := value)
  }

  /** The editor for `a` is the one on screen. */
  predicate EditorOpen(st: State, a: Assignment) {
    st.editingId == Some(a.id)
  }

  /** The edit button as written: it only calls `onEditDeadlineChange` with the
      assignment's deadline. */
  function EditButtonAsWritten(st: State, a: Assignment): (r: State)
    ensures r.editingId == st.editingId
    ensures r.tempDeadline == a.deadline
    ensures r == st.(tempDeadline := r.tempDeadline)
  {
    EditDeadlineChange(st, a.deadline)
  }

  /** No operation of the component sets `editingId` to an id: starting from
      the initial state, where it is null, pressing the edit button, saving,
      cancelling, creating, deleting or submitting all leave it null, so the
      editor of any assignment never opens. */
  lemma EditorNeverOpens(st: State, store: Store, a: Assignment, id: string, confirmed: bool,
                         file: Option<FileInput>, stamp: string, dataUrl: string,
                         io: Storage.Io, io2: Storage.Io)
    requires st.editingId.None?
    requires st.session.Some?
    ensures !EditorOpen(EditButtonAsWritten(st, a), a)
    ensures EditButtonAsWritten(st, a).editingId.None?
    ensures Handlers.SaveDeadline(st, store, a.id, io).state.editingId.None?
    ensures Handlers.CancelEdit(st).editingId.None?
    ensures Handlers.AddAssignment(st, store, id, io).state.editingId.None?
    ensures Handlers.DeleteAssignment(st, store, a.id, confirmed, io, io2).state.editingId.None?
    ensures Handlers.ConfirmSubmit(st, store, a.id, file, id, stamp, dataUrl, io).state.editingId.None?
  {
  }

  /** The concrete case: in the freshly started tab, pressing edit on an
      assignment does not show its editor. */
  lemma EditorClosedAfterEditClick(a: Assignment)
    ensures !EditorOpen(EditButtonAsWritten(Initial, a), a)
  {
  }

  /** The evidently intended edit button: open the editor for `a`, pre-filled
      with its current deadline. */
  function StartEdit(st: State, a: Assignment): (r: State)
    ensures EditorOpen(r, a)
    ensures r.tempDeadline == a.deadline
    ensures r.assignments == st.assignments && r.submissions == st.submissions
    ensures r == st.(editingId := r.editingId, tempDeadline := r.tempDeadline)
  {
    st.(editingId := Some(a.id), tempDeadline := a.deadline)
  }

  /** With the intended button the edit round trip works: open the editor on
      `a`, type a new date, save; `a` now carries the new date, every other
      field of it is kept, and the editor is closed again. */
  lemma EditRoundTrip(st: State, store: Store, i: nat, deadline: string, io: Storage.Io)
    requires i < |st.assignments| && deadline != ""
    ensures var a := st.assignments[i];
            var saved := Handlers.SaveDeadline(EditDeadlineChange(StartEdit(st, a), deadline), store, a.id, io);
            && saved.state.assignments[i] == a.(deadline := deadline)
            && saved.state.editingId.None?
            && saved.state.tempDeadline == ""
  {
  }
}

/** The state one open tab of the application holds, the payloads it writes to
    the shared store, and the bookkeeping of a write (store, notifications,
    alerts) that every mutation handler shares. */
module AppState {
  import opened Wrappers
  import opened Records
  import Storage

  const AssignmentsKey: string := "assignments"
  const SubmissionsKey: string := "submissions"

  /** The `data` field of an envelope or the `value` of a notification, as far
      as the application reads it: a falsy value (`null`, `undefined`), or an
      array of one of the two record kinds. */
  datatype Data =
    | Falsy
    | AssignmentList(assignments: seq<Assignment>)
    | SubmissionList(submissions: seq<Submission>)

  type Store = Storage.Store<Data>
  type Message = Storage.Message<Data>

  /** JavaScript truthiness of a payload; an array, even an empty one, is truthy. */
  predicate Truthy(d: Data) {
    !d.Falsy?
  }

  /** `d` is a payload that may stand under `key`: the application never puts a
      list of one record kind under the other kind's key. */
  predicate FitsKey(key: string, d: Data) {
    && (key == AssignmentsKey ==> !d.SubmissionList?)
    && (key == SubmissionsKey ==> !d.AssignmentList?)
  }

  /** Every envelope in the store fits the key it is stored under. */
  ghost predicate WellKinded(store: Store) {
    forall k :: k in store && store[k].Envelope? ==> FitsKey(k, store[k].data)
  }

  /** `value || []` for an assignments payload (`None` is `null`). */
  function AssignmentsOr(d: Option<Data>): (r: seq<Assignment>)
    requires d.Some? ==> !d.value.SubmissionList?
  {
    if d.Some? && d.value.AssignmentList? then d.value.assignments else []
  }

  /** `value || []` for a submissions payload. */
  function SubmissionsOr(d: Option<Data>): (r: seq<Submission>)
    requires d.Some? ==> !d.value.AssignmentList?
  {
    if d.Some? && d.value.SubmissionList? then d.value.submissions else []
  }

  /** The fields of the "new assignment" form. */
  datatype Draft = Draft(title: string, description: string, deadline: string, driveLink: string)

  const EmptyDraft: Draft := Draft("", "", "", "")

  /** The logged-in user together with the role the login gave them
      (`currentUser` and `userRole`, which are always set together). */
  datatype Session = Session(user: User, role: Role)

  /** The application component's state, less the purely visual toggles. */
  datatype State = State(
    session: Option<Session>,
    showLogin: bool,
    loginEmail: string,
    loginPassword: string,
    assignments: seq<Assignment>,
    submissions: seq<Submission>,
    showAddAssignment: bool,
    newAssignment: Draft,
    confirmSubmit: Option<string>,
    editingId: Option<string>,
    tempDeadline: string)

  /** The state a tab starts in, before the first load. */
  const Initial: State := State(None, true, "", "", [], [], false, EmptyDraft, None, None, "")

  /** A handler's result: the tab's new state, the shared store, the
      notifications sent to other tabs and the alerts shown, in order. */
  datatype Outcome = Outcome(state: State, store: Store, sent: seq<Message>, alerts: seq<Alert>)

  /** Appends one `setToStorage(key, value)` to an outcome. */
  function Persist(o: Outcome, key: string, value: Data, io: Storage.Io): Outcome {
    var w := Storage.Set(o.store, key, value, io);
    o.(store := w.store,
       sent := o.sent + (if w.sent.Some? then [w.sent.value] else []),
       alerts := o.alerts + (if w.failed then [StorageError] else []))
  }

  /** `after` is `before` with `value` written under `key` when the write was
      accepted, and `before` itself when it was refused. */
  ghost predicate Stored(before: Store, after: Store, key: string, value: Data, io: Storage.Io) {
    && (io.writeOk ==> Storage.Get(after, key) == Storage.Read(Some(value), after))
    && (!io.writeOk ==> after == before)
    && forall k :: k != key ==> Storage.SameAt(after, before, k)
  }

  /** `r` carries exactly the effects of one write of `value` under `key` on
      `store`: the store, the notification and the alert. */
  ghost predicate Committed(store: Store, r: Outcome, key: string, value: Data, io: Storage.Io) {
    && Stored(store, r.store, key, value, io)
    && r.sent == (if io.writeOk && io.channelOk then [Storage.Message(key, value)] else [])
    && r.alerts == (if io.writeOk && io.channelOk then [] else [StorageError])
  }

  /** An accepted write of a fitting payload keeps the store well-kinded. */
  lemma SetWellKinded(store: Store, key: string, value: Data, io: Storage.Io)
    requires WellKinded(store) && FitsKey(key, value)
    ensures WellKinded(Storage.Set(store, key, value, io).store)
  {
    var w := Storage.Set(store, key, value, io);
    forall k | k in w.store && w.store[k].Envelope?
      ensures FitsKey(k, w.store[k].data)
    {
      if k != key {
        assert Storage.SameAt(w.store, store, k);
      }
    }
  }

  /** A read only ever removes an entry, so it keeps the store well-kinded. */
  lemma GetWellKinded(store: Store, key: string)
    requires WellKinded(store)
    ensures WellKinded(Storage.Get(store, key).store)
  {
    var r := Storage.Get(store, key);
    forall k | k in r.store && r.store[k].Envelope?
      ensures FitsKey(k, r.store[k].data)
    {
      if k != key {
        assert Storage.SameAt(r.store, store, k);
      }
    }
  }

  /** One write on an outcome with no effects yet is committed as such, and a
      well-kinded store stays well-kinded. */
  lemma PersistCommits(o: Outcome, key: string, value: Data, io: Storage.Io)
    requires o.sent == [] && o.alerts == []
    ensures Committed(o.store, Persist(o, key, value, io), key, value, io)
    ensures Persist(o, key, value, io).state == o.state
    ensures WellKinded(o.store) && FitsKey(key, value) ==> WellKinded(Persist(o, key, value, io).store)
  {
    if io.writeOk {
      Storage.GetAfterSet(o.store, key, value, io);
    }
    if WellKinded(o.store) && FitsKey(key, value) {
      SetWellKinded(o.store, key, value, io);
    }
  }
}

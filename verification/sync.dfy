/** Loading a tab's collections from the shared store, and the two ways other
    tabs' writes reach it: the broadcast notification and the storage-change
    event. Both replace a collection wholesale; neither merges. */
module Sync {
  import opened Wrappers
  import opened Records
  import opened AppState
  import Storage
  import Mocks

  /** The store holds, under `key`, a current envelope with a truthy payload:
      exactly the case in which `getFromStorage(key)` is truthy. */
  ghost predicate HoldsList(store: Store, key: string) {
    key in store && Storage.Current(store[key]) && Truthy(store[key].data)
  }

  /** The first half of the initial load: assignments come from the store
      when it holds a list (an empty list included); otherwise the seed set is
      used and written. */
  function LoadAssignments(st: State, store: Store, io: Storage.Io): (r: Outcome)
    requires WellKinded(store)
    ensures !HoldsList(store, AssignmentsKey) ==>
      && r.state.assignments == Mocks.InitialAssignments
      && (io.writeOk ==> Storage.Get(r.store, AssignmentsKey).value == Some(AssignmentList(Mocks.InitialAssignments)))
      && Committed(Storage.Get(store, AssignmentsKey).store, r, AssignmentsKey, AssignmentList(Mocks.InitialAssignments), io)
    ensures HoldsList(store, AssignmentsKey) ==>
      && r.state.assignments == store[AssignmentsKey].data.assignments
      && Storage.SameAt(r.store, store, AssignmentsKey)
      && r.sent == [] && r.alerts == []
    ensures forall k :: k != AssignmentsKey ==> Storage.SameAt(r.store, store, k)
    ensures r.state == st.(assignments := r.state.assignments)
    ensures WellKinded(r.store)
  {
    var a := Storage.Get(store, AssignmentsKey);
    GetWellKinded(store, AssignmentsKey);
    if a.value.None? || !Truthy(a.value.value) then
      var seeded := Outcome(st.(assignments := Mocks.InitialAssignments), a.store, [], []);
      PersistCommits(seeded, AssignmentsKey, AssignmentList(Mocks.InitialAssignments), io);
      Persist(seeded, AssignmentsKey, AssignmentList(Mocks.InitialAssignments), io)
    else
      Outcome(st.(assignments := AssignmentsOr(a.value)), a.store, [], [])
  }

  /** The second half: submissions come from the store or default to empty,
      and are never written; only the submissions entry may be discarded. */
  function LoadSubmissions(o: Outcome): (r: Outcome)
    requires WellKinded(o.store)
    ensures r.state == o.state.(submissions := if HoldsList(o.store, SubmissionsKey)
                                              then o.store[SubmissionsKey].data.submissions else [])
    ensures SubmissionsKey in r.store ==> SubmissionsKey in o.store && r.store[SubmissionsKey] == o.store[SubmissionsKey]
    ensures forall k :: k != SubmissionsKey ==> Storage.SameAt(r.store, o.store, k)
    ensures r.store == Storage.Get(o.store, SubmissionsKey).store
    ensures r.sent == o.sent && r.alerts == o.alerts
    ensures WellKinded(r.store)
  {
    var s := Storage.Get(o.store, SubmissionsKey);
    GetWellKinded(o.store, SubmissionsKey);
    o.(state := o.state.(submissions := SubmissionsOr(s.value)), store := s.store)
  }

  /** The initial load. Assignments come from the store when it holds a list
      (an empty list included); otherwise the seed set is used and written.
      Submissions come from the store or default to empty, and are not
      written. Nothing else in the tab changes. */
  function InitialLoad(st: State, store: Store, io: Storage.Io): (r: Outcome)
    requires WellKinded(store)
    ensures !HoldsList(store, AssignmentsKey) ==>
      && r.state.assignments == Mocks.InitialAssignments
      && (io.writeOk ==> Storage.Get(r.store, AssignmentsKey).value == Some(AssignmentList(Mocks.InitialAssignments)))
      && r.sent == (if io.writeOk && io.channelOk
                    then [Storage.Message(AssignmentsKey, AssignmentList(Mocks.InitialAssignments))] else [])
      && r.alerts == (if io.writeOk && io.channelOk then [] else [StorageError])
      && (!io.writeOk ==> Storage.SameAt(r.store, Storage.Get(store, AssignmentsKey).store, AssignmentsKey))
    ensures HoldsList(store, AssignmentsKey) ==>
      && r.state.assignments == store[AssignmentsKey].data.assignments
      && Storage.SameAt(r.store, store, AssignmentsKey)
      && r.sent == [] && r.alerts == []
    ensures r.state.submissions ==
      (if HoldsList(store, SubmissionsKey) then store[SubmissionsKey].data.submissions else [])
    ensures SubmissionsKey in r.store ==> SubmissionsKey in store && r.store[SubmissionsKey] == store[SubmissionsKey]
    ensures Storage.SameAt(r.store, Storage.Get(store, SubmissionsKey).store, SubmissionsKey)
    ensures forall k :: k != AssignmentsKey && k != SubmissionsKey ==> Storage.SameAt(r.store, store, k)
    ensures r.state == st.(assignments := r.state.assignments, submissions := r.state.submissions)
    ensures WellKinded(r.store)
  {
    var o := LoadAssignments(st, store, io);
    assert Storage.SameAt(o.store, store, SubmissionsKey);
    assert HoldsList(o.store, SubmissionsKey) <==> HoldsList(store, SubmissionsKey);
    var r := LoadSubmissions(o);
    assert Storage.SameAt(r.store, o.store, AssignmentsKey);
    r
  }

  /** A stored empty list is a list: it is kept and nothing is seeded or written. */
  lemma EmptyListKept(st: State, store: Store, io: Storage.Io, t: int)
    requires WellKinded(store)
    requires AssignmentsKey in store && store[AssignmentsKey] == Storage.Envelope(Storage.CurrentVersion, AssignmentList([]), t)
    ensures InitialLoad(st, store, io).state.assignments == []
    ensures InitialLoad(st, store, io).sent == []
  {
  }

  /** The broadcast handler: a notification for either collection replaces it
      (a falsy value by the empty list); any other key is ignored. */
  function HandleBroadcast(st: State, m: Message): (r: State)
    requires FitsKey(m.key, m.value)
    ensures m.key == AssignmentsKey ==>
      && r == st.(assignments := r.assignments)
      && (m.value.AssignmentList? ==> r.assignments == m.value.assignments)
      && (m.value.Falsy? ==> r.assignments == [])
    ensures m.key == SubmissionsKey ==>
      && r == st.(submissions := r.submissions)
      && (m.value.SubmissionList? ==> r.submissions == m.value.submissions)
      && (m.value.Falsy? ==> r.submissions == [])
    ensures m.key != AssignmentsKey && m.key != SubmissionsKey ==> r == st
  {
    if m.key == AssignmentsKey then st.(assignments := AssignmentsOr(Some(m.value)))
    else if m.key == SubmissionsKey then st.(submissions := SubmissionsOr(Some(m.value)))
    else st
  }

  /** Every notification an outcome sent fits its key and, delivered back to
      the tab that sent it, leaves that tab's state as it is. */
  ghost predicate EchoesHarmless(r: Outcome) {
    forall m :: m in r.sent ==> FitsKey(m.key, m.value) && HandleBroadcast(r.state, m) == r.state
  }

  /** A tab's state and the shared store after a storage-change event. */
  datatype Synced = Synced(state: State, store: Store)

  /** The storage-change handler: re-reads the changed key through the codec
      (which may discard a bad entry) and replaces that collection with what it
      decodes, or with the empty list. Other keys are ignored. */
  function HandleStorageEvent(st: State, store: Store, key: string): (r: Synced)
    requires WellKinded(store)
    ensures key == AssignmentsKey ==>
      r.state == st.(assignments := if HoldsList(store, key) then store[key].data.assignments else [])
    ensures key == SubmissionsKey ==>
      r.state == st.(submissions := if HoldsList(store, key) then store[key].data.submissions else [])
    ensures key == AssignmentsKey || key == SubmissionsKey ==> r.store == Storage.Get(store, key).store
    ensures key != AssignmentsKey && key != SubmissionsKey ==> r == Synced(st, store)
    ensures WellKinded(r.store)
  {
    GetWellKinded(store, key);
    if key == AssignmentsKey then
      var read := Storage.Get(store, key);
      Synced(st.(assignments := AssignmentsOr(read.value)), read.store)
    else if key == SubmissionsKey then
      var read := Storage.Get(store, key);
      Synced(st.(submissions := SubmissionsOr(read.value)), read.store)
    else Synced(st, store)
  }

  /** Receiving the same notification twice is the same as receiving it once. */
  lemma BroadcastIdempotent(st: State, m: Message)
    requires FitsKey(m.key, m.value)
    ensures HandleBroadcast(HandleBroadcast(st, m), m) == HandleBroadcast(st, m)
  {
  }

  /** A notification replaces rather than merges: the collection it names ends
      up the same whatever the tab held before. */
  lemma BroadcastReplaces(st1: State, st2: State, m: Message)
    requires FitsKey(m.key, m.value)
    ensures HandleBroadcast(st1, m).assignments == (if m.key == AssignmentsKey then HandleBroadcast(st2, m).assignments else st1.assignments)
    ensures HandleBroadcast(st1, m).submissions == (if m.key == SubmissionsKey then HandleBroadcast(st2, m).submissions else st1.submissions)
  {
  }

  /** Handling the same storage event twice is the same as handling it once,
      for the tab and for the store. */
  lemma StorageEventIdempotent(st: State, store: Store, key: string)
    requires WellKinded(store)
    ensures HandleStorageEvent(HandleStorageEvent(st, store, key).state, HandleStorageEvent(st, store, key).store, key)
            == HandleStorageEvent(st, store, key)
  {
    Storage.GetIdempotent(store, key);
  }

  /** After an accepted write, the fallback path and the broadcast path agree:
      the storage event yields the state the notification yields, touches
      nothing in the store, and applying both, in either order, is the same as
      applying one. */
  lemma FallbackAgreesWithBroadcast(st: State, store: Store, key: string, value: Data, io: Storage.Io)
    requires WellKinded(store) && FitsKey(key, value) && io.writeOk
    ensures WellKinded(Storage.Set(store, key, value, io).store)
    ensures var after := Storage.Set(store, key, value, io).store;
            var m := Storage.Message(key, value);
            && HandleStorageEvent(st, after, key) == Synced(HandleBroadcast(st, m), after)
            && HandleStorageEvent(HandleBroadcast(st, m), after, key) == Synced(HandleBroadcast(st, m), after)
            && HandleBroadcast(HandleStorageEvent(st, after, key).state, m) == HandleBroadcast(st, m)
  {
    SetWellKinded(store, key, value, io);
    Storage.GetAfterSet(store, key, value, io);
  }
}

/** Whole-application scenarios: a first start on an empty store followed by a
    create and a delete, and one tab's write reaching another tab. */
module Scenario {
  import opened Wrappers
  import opened Records
  import opened AppState
  import Storage
  import Mocks
  import Sync
  import Handlers

  /** Start on an empty store: the tab holds the three seeds and no
      submissions. The instructor creates "X" due 2025-12-01: four
      assignments, and the store holds all four. Deleting it again leaves
      the three seeds. */
  lemma SeedCreateDelete(io: Storage.Io, newId: string)
    requires io.writeOk
    requires newId != "a1" && newId != "a2" && newId != "a3"
    ensures var loaded := Sync.InitialLoad(Initial, map[], io);
            && loaded.state.assignments == Mocks.InitialAssignments
            && loaded.state.submissions == []
    ensures var loaded := Sync.InitialLoad(Initial, map[], io);
            var admin := loaded.state.(session := Some(Session(Mocks.AdminUser, Admin)),
                                       newAssignment := Draft("X", "", "2025-12-01", ""));
            var added := Handlers.AddAssignment(admin, loaded.store, newId, io);
            var deleted := Handlers.DeleteAssignment(added.state, added.store, newId, true, io, io);
            && |added.state.assignments| == 4
            && Storage.Get(added.store, AssignmentsKey).value == Some(AssignmentList(added.state.assignments))
            && deleted.state.assignments == Mocks.InitialAssignments
            && deleted.state.submissions == []
  {
    var loaded := Sync.InitialLoad(Initial, map[], io);
    var admin := loaded.state.(session := Some(Session(Mocks.AdminUser, Admin)),
                               newAssignment := Draft("X", "", "2025-12-01", ""));
    Mocks.SeedIds();
    assert forall a :: a in admin.assignments ==> a.id != newId;
    Handlers.DeleteUndoesAdd(admin, loaded.store, newId, io, io, io);
  }

  /** A creation in one tab, once written, gives any other tab the same list
      by the storage-change event; when the channel also worked, the
      notification gives it too, and when it failed only the storage alert is
      shown. */
  lemma CreationReachesOtherTab(a: State, b: State, store: Store, id: string, io: Storage.Io)
    requires WellKinded(store)
    requires Handlers.DraftComplete(a.newAssignment) && a.session.Some?
    requires io.writeOk
    ensures var r := Handlers.AddAssignment(a, store, id, io);
            io.channelOk ==>
              && |r.sent| == 1
              && FitsKey(r.sent[0].key, r.sent[0].value)
              && Sync.HandleBroadcast(b, r.sent[0]).assignments == r.state.assignments
    ensures var r := Handlers.AddAssignment(a, store, id, io);
            !io.channelOk ==> r.sent == [] && r.alerts == [StorageError]
    ensures var r := Handlers.AddAssignment(a, store, id, io);
            && WellKinded(r.store)
            && Sync.HandleStorageEvent(b, r.store, AssignmentsKey).state.assignments == r.state.assignments
  {
    var r := Handlers.AddAssignment(a, store, id, io);
    assert Storage.Get(r.store, AssignmentsKey).value == Some(AssignmentList(r.state.assignments));
  }

  /** Each write posts its notification from a fresh channel object, so the
      writing tab's own listener receives it too. A created assignment's echo
      carries the list the tab already holds. */
  lemma AddEchoHarmless(st: State, store: Store, id: string, io: Storage.Io)
    requires Handlers.DraftComplete(st.newAssignment) ==> st.session.Some?
    ensures Sync.EchoesHarmless(Handlers.AddAssignment(st, store, id, io))
  {
  }

  /** The two echoes of a delete are both harmless to the deleting tab. */
  lemma DeleteEchoHarmless(st: State, store: Store, id: string, confirmed: bool, io1: Storage.Io, io2: Storage.Io)
    ensures Sync.EchoesHarmless(Handlers.DeleteAssignment(st, store, id, confirmed, io1, io2))
  {
  }

  /** A submission's echo, sent directly or through the confirmation, is harmless. */
  lemma SubmitEchoHarmless(st: State, store: Store, assignmentId: string, file: Option<FileInput>,
                           id: string, submittedAt: string, dataUrl: string, io: Storage.Io)
    requires FileOk(file) ==> st.session.Some?
    ensures Sync.EchoesHarmless(Handlers.SubmitAssignment(st, store, assignmentId, file, id, submittedAt, dataUrl, io))
    ensures Sync.EchoesHarmless(Handlers.ConfirmSubmit(st, store, assignmentId, file, id, submittedAt, dataUrl, io))
  {
  }

  /** A re-dated list's echo is harmless. */
  lemma SaveEchoHarmless(st: State, store: Store, id: string, io: Storage.Io)
    ensures Sync.EchoesHarmless(Handlers.SaveDeadline(st, store, id, io))
  {
  }

  /** The seed list's echo on a first start is harmless. */
  lemma LoadEchoHarmless(st: State, store: Store, io: Storage.Io)
    requires WellKinded(store)
    ensures Sync.EchoesHarmless(Sync.InitialLoad(st, store, io))
  {
  }
}

# Assignment tracker: a Dafny model of its state logic

The assignment tracker is a browser application for one instructor and a
fixed roster of students. There is no server. Assignments and submissions
live in the browser's key-value store inside versioned envelopes, and open
tabs keep each other current through a broadcast channel, with the store's
change event as a fallback. This project models, as pure functions over
immutable sequences and maps:

- the versioned store codec (`getFromStorage` / `setToStorage`), generic over
  the payload (`storage.dfy`);
- the first load of a tab and the two cross-tab sync handlers (`sync.dfy`);
- login against the constant roster, and logout (`login.dfy`, `mocks.dfy`);
- the mutation handlers: create, delete (cascading to submissions), re-date,
  submit, and the two-click submit confirmation (`handlers.dfy`);
- the derived queries: `isSubmitted`, the submission count, and the pending
  and submitted counters (`queries.dfy`);
- the student dashboard's file guard, modal, status label and highlight
  (`student_dashboard.dfy`);
- how the deadline editor is entered, which is the subject of the one
  finding (`deadline_editor.dfy`);
- two whole-application scenarios (`scenario.dfy`).

Inputs the program gets from its environment are explicit parameters:
- whether `localStorage.setItem` succeeds and whether the broadcast channel
  opens (`Storage.Io`);
- the clock reading and the fresh ids built from it;
- the answer to `window.confirm`;
- the data URL the file reader produces;
- whether a deadline has passed.

Alerts are returned as `Alert` values.

Behaviour of the code worth noting:
- A stored empty string reads as absent, and it is *not* removed. Only
  malformed text and envelopes of another version are removed (`Storage.Get`).
- Ids are `'a'`/`'s'` followed by the clock reading, so they are not
  guaranteed unique. They are parameters here. When two assignments share an
  id, a delete removes both and a re-date changes both.
- A broadcast-channel failure after a successful `setItem` still shows the
  quota alert, even though the value was stored (`Storage.Set`).
- A delete makes two independent writes. Either one can fail alone, and the
  model keeps each key's fate separate (`Handlers.DeleteAssignment`).
- The modal's due-date highlight (src/components/student/StudentDashboard.jsx:246)
  depends only on the date, not on whether the assignment was submitted.
  Only the card and table views combine the two (`StudentDashboard.OverdueHighlight`).

## Model

| member | source | states |
|---|---|---|
| Storage.Get | src/App.jsx:33-50 | an absent or blank key reads as nothing and changes nothing; a malformed entry or an envelope whose version is not "v1" reads as nothing and only that key is removed; a "v1" envelope yields its data and nothing changes |
| Storage.Set | src/App.jsx:52-63 | an accepted write puts a "v1" envelope of the value under the key only; a refused write leaves the store as it was; the notification `{key, value}` goes out only if write and channel both succeed, and otherwise the storage alert is raised |
| Storage.GetAfterSet | src/App.jsx:33-55 | reading a key right after an accepted write yields the written value and changes nothing |
| Storage.GetOtherAfterSet | src/App.jsx:52-55 | a write under one key does not change what another key reads as |
| Storage.GetIdempotent | src/App.jsx:36-48 | a second read of a key yields the same value as the first and discards nothing more |
| Records.FileRule | src/App.jsx:165-172 | a file passes exactly when it is "application/pdf" and at most 2 MiB; exactly 2 MiB passes, one byte more is too large; the type check comes first |
| Mocks.SeedIds | src/data/mocks.jsx:11-36 | the seed set has three assignments with the pairwise distinct ids a1, a2, a3 |
| Mocks.SeedsComplete | src/data/mocks.jsx:13-30 | every seed has a non-empty title and deadline, so it would pass the creation guard |
| Mocks.SeedsByAdmin | src/data/mocks.jsx:7-34 | every seed was created by the instructor, id "a1" |
| Mocks.StudentsDistinct | src/data/mocks.jsx:1-5 | the three students have pairwise distinct ids and emails |
| Mocks.AdminEmailUnique | src/data/mocks.jsx:1-9 | no student has the instructor's email |
| Queries.IsSubmitted | src/App.jsx:203-207 | true exactly when some submission pairs the assignment id with the student id |
| Queries.SubmissionCount | src/App.jsx:209-211 | the count is at most the number of submissions, and positive exactly when some submission references the assignment |
| Queries.SubmittedIsCounted | src/App.jsx:203-211 | a submitted pair makes the assignment's count at least one |
| Queries.CountAfterAppend | src/App.jsx:209-211 | appending a submission raises its own assignment's count by one and no other assignment's count |
| Queries.SubmittedAfterAppend | src/App.jsx:203-207 | after an append the new pair reads as submitted, and every pair submitted before still does |
| Queries.PendingCount | src/App.jsx:237-240 | the number of positions in the student's list whose assignment the student has not submitted; zero when no student is logged in |
| Queries.SubmittedCount | src/App.jsx:241-243 | the number of positions in the student's list whose assignment the student has submitted; zero when no student is logged in |
| Queries.CountersPartition | src/App.jsx:237-243 | pending and submitted counts add up to the number of assignments the student sees |
| Login.FirstMatch | src/App.jsx:113-115 | the first roster position whose email and password both match, or none when no entry matches |
| Login.Lookup | src/App.jsx:108-124 | matching instructor credentials always give the instructor; an instructor session only comes from matching instructor credentials; otherwise the first matching student, with the student role; nobody exactly when no one matches |
| Login.EveryStudentLogsIn | src/App.jsx:105-124 | each roster student's own credentials log in as that student, never as the instructor or another student |
| Login.HandleLogin | src/App.jsx:105-124 | a match sets the session the credential lookup finds (instructor first, then the first matching student), whose user matches the typed credentials, and hides the form, changing nothing else; no match alerts and changes nothing |
| Login.HandleLogout | src/App.jsx:126-132 | the session and typed credentials are cleared and the form shown; collections, draft and confirmation are kept |
| Login.LogoutUndoesLogin | src/App.jsx:105-132 | logging out after a successful login restores the prior state except the cleared credentials |
| Sync.LoadAssignments | src/App.jsx:88-93 | with a list stored (even an empty one), it is adopted and nothing is written; otherwise the seeds are adopted and written under "assignments": an accepted write stores them, a refused one leaves the store as the read left it, and the notification or the storage alert follows the write's fate |
| Sync.LoadSubmissions | src/App.jsx:95-96 | the stored list, or empty when none; submissions are never written, and the store is exactly what the codec's read leaves: a "v1" entry stays, only a malformed or other-version entry is discarded |
| Sync.InitialLoad | src/App.jsx:88-96 | the seeds are used and written exactly when the store holds no assignment list, with the storage alert when the write or channel fails and the key left as the read left it when the write is refused; submissions come from the store or default to empty and are not written, their key left as the codec's read leaves it; keys other than these two are untouched; the rest of the tab state is unchanged |
| Sync.EmptyListKept | src/App.jsx:88-93 | a stored empty assignment list is kept, and no seed is written |
| Sync.HandleBroadcast | src/App.jsx:68-74 | a notification for a collection replaces it, with a falsy value replaced by the empty list; other keys are ignored; nothing else changes |
| Sync.HandleStorageEvent | src/App.jsx:78-84 | the changed collection is replaced by what the store decodes to, or by the empty list; the read's discarding side effect is kept; other keys are ignored |
| Sync.BroadcastIdempotent | src/App.jsx:68-74 | receiving the same notification twice equals receiving it once |
| Sync.BroadcastReplaces | src/App.jsx:68-74 | the replaced collection does not depend on what the tab held before: replace, not merge |
| Sync.StorageEventIdempotent | src/App.jsx:78-84 | handling the same storage event twice equals handling it once, for the tab and the store |
| Sync.FallbackAgreesWithBroadcast | src/App.jsx:52-84 | after an accepted write, the storage event and the notification give the same state; applying both, in either order, equals applying one |
| Handlers.AddAssignment | src/App.jsx:134-150 | a missing title or deadline only alerts; otherwise exactly one assignment is appended with the form's fields, the fresh id and the current user as creator; the form is reset and closed; the new list is written |
| Handlers.DeleteAssignment | src/App.jsx:152-162 | declined: nothing changes; confirmed: the surviving assignments and submissions are exactly the original ones not carrying the id, each occurrence once and in the original order, and as many submissions are gone as referenced the assignment; each of the two writes stores its list or leaves its key as it was, with one notification or one storage alert per write |
| Handlers.RemoveAssignment | src/App.jsx:154-159 | the in-memory half of a delete: the survivors of both lists are the kept elements in their original order, and nothing else in the tab changes |
| Handlers.WriteBoth | src/App.jsx:156-160 | the two writes of a delete are independent: each key holds its list exactly when its write was accepted, other keys are untouched, and each write contributes its own notification or alert |
| Handlers.DeleteCountsReferences | src/App.jsx:158 | dropping the submissions of an assignment removes exactly as many as its submission count |
| Seqs.FilterSelects | src/App.jsx:154-158 | a filter's result is the accepted elements of its input, each occurrence once, in their original order |
| Seqs.FilterLengthCounts | src/App.jsx:237-243 | a filter's length is the number of positions whose element the filter accepts |
| Handlers.DeleteKeepsOrder | src/App.jsx:154-158 | two surviving assignments appear in the result in their original order |
| Handlers.DeleteUndoesAdd | src/App.jsx:134-162 | deleting an assignment just created under an unused id restores both collections |
| Handlers.SubmitAssignment | src/App.jsx:164-201 | a non-PDF, then an oversized file, alerts and changes nothing; otherwise exactly one submission is appended for the current user, with the file's fields and content when there is a file; the confirmation is cleared and the list written |
| Handlers.SubmitMarksSubmitted | src/App.jsx:196-211 | after an accepted submission the pair reads as submitted and the assignment's count grew by exactly one |
| Handlers.ResubmissionAppends | src/App.jsx:174-200 | there is no duplicate check: a pair that is already submitted gets a second submission and is counted twice |
| Handlers.ConfirmSubmit | src/App.jsx:245-251 | an unarmed click only arms the assignment and records nothing; an armed click performs the submit; a completed submit disarms; a refused file leaves it armed |
| Handlers.TwoClicksSubmitOnce | src/App.jsx:245-251 | two clicks on the same assignment with an acceptable file record exactly one submission for it and end disarmed |
| Handlers.WithDeadline | src/App.jsx:222-224 | same length; each element with the id gets the new deadline, every other element is unchanged |
| Handlers.SaveDeadline | src/App.jsx:217-229 | an empty date only alerts; otherwise the list keeps its length, assignments with the id change only their deadline, the others are unchanged, the editor is closed and the list is written |
| Handlers.WithDeadlineIdempotent | src/App.jsx:222-224 | saving the same deadline twice equals saving it once |
| Handlers.CancelEdit | src/App.jsx:231-234 | the editor is closed and the typed date dropped; every other field of the tab is kept |
| Handlers.SaveAfterCancelRefused | src/App.jsx:217-234 | a save right after a cancel is refused and changes nothing |
| StudentDashboard.ViewAssignment | src/components/student/StudentDashboard.jsx:21-24 | the assignment is open and no file is picked |
| StudentDashboard.CloseModal | src/components/student/StudentDashboard.jsx:25-28 | nothing is open and no file is picked |
| StudentDashboard.FileChange | src/components/student/StudentDashboard.jsx:30-43 | a non-PDF, then an oversized file, alerts and keeps the previous pick; any other pick, including none, replaces it |
| StudentDashboard.PickerBoundary | src/components/student/StudentDashboard.jsx:37-42 | a PDF of exactly 2 MiB becomes the pick; one byte more is refused and the pick is kept |
| StudentDashboard.SubmitFromModal | src/components/student/StudentDashboard.jsx:45-51 | no picked file: no call and the "select a PDF" alert; a picked file: exactly one call, with the assignment id and that file, and no alert |
| StudentDashboard.HandedFilesAreValid | src/components/student/StudentDashboard.jsx:30-51 | any pick keeps a valid modal file valid, so a file the modal hands on always passes the submit handler's guard |
| StudentDashboard.ModalLifecycle | src/components/student/StudentDashboard.jsx:21-51 | right after opening or closing, submitting from the modal calls nothing and only shows the "select a PDF" alert; closing after opening gives the closed modal |
| StudentDashboard.StatusLabel | src/components/student/StudentDashboard.jsx:190-202 | Submitted exactly when submitted, Overdue exactly when overdue and not submitted, Pending otherwise |
| StudentDashboard.HighlightMatchesLabel | src/components/student/StudentDashboard.jsx:109-202 | `OverdueHighlight`, the card and table views' red date and overdue warning (lines 109, 150, 185), is shown exactly when the label is Overdue, i.e. overdue and not submitted |
| StudentDashboard.ModalFlags | src/components/student/StudentDashboard.jsx:53-54 | with nothing open both flags are false; otherwise submitted is whether some submission pairs the open assignment with the student, and overdue is the date check of its deadline |
| DeadlineEditor.EditDeadlineChange | src/App.jsx:296-297 | only the typed date changes |
| DeadlineEditor.EditButtonAsWritten | src/components/admin/AdminDashboard.jsx:162-169 | the edit button copies the deadline into the typed date and changes nothing else, `editingId` included |
| DeadlineEditor.EditorNeverOpens | src/components/admin/AdminDashboard.jsx:146-169 | with `editingId` null, neither the edit button nor any handler sets it, so no assignment's editor opens |
| DeadlineEditor.EditorClosedAfterEditClick | src/components/admin/AdminDashboard.jsx:162-169 | in a fresh tab, pressing edit on any assignment does not open its editor |
| DeadlineEditor.StartEdit | src/components/admin/AdminDashboard.jsx:162-169 | the intended button opens the editor for that assignment, pre-filled with its deadline, and changes nothing else |
| DeadlineEditor.EditRoundTrip | src/App.jsx:217-229 | open, type a new date, save: the assignment carries the new date with every other field kept, and the editor is closed |
| Scenario.SeedCreateDelete | src/App.jsx:88-162 | first start on an empty store gives the three seeds and no submissions; a created assignment makes four, also in the store; deleting it gives back the seeds |
| Scenario.CreationReachesOtherTab | src/App.jsx:52-85 | after an accepted write, a created assignment reaches any other tab's list by the storage event; with a working channel also by the notification, and with a failed channel no notification goes out and the storage alert is shown |
| Scenario.AddEchoHarmless | src/App.jsx:57-74 | the writing tab also receives its own notification of a created assignment, and it fits its key and leaves that tab's state unchanged |
| Scenario.DeleteEchoHarmless | src/App.jsx:57-74 | both notifications of a delete, received back by the deleting tab, leave its state unchanged |
| Scenario.SubmitEchoHarmless | src/App.jsx:57-74 | a submission's notification, sent directly or through the confirmation, leaves the submitting tab's state unchanged |
| Scenario.SaveEchoHarmless | src/App.jsx:57-74 | a re-dated list's notification leaves the saving tab's state unchanged |
| Scenario.LoadEchoHarmless | src/App.jsx:57-96 | the seed list's notification on a first start leaves the loading tab's state unchanged |

## Left out

- Rendering and styling. This includes the header, the view toggle and the
  login form, which only forward events, and the view-only state
  (`viewMode`, `viewingSubmissionsFor`, opening the add form). Typing into
  the form fields is a plain field update.
- The browser APIs: `localStorage`, `BroadcastChannel` and the `storage`
  event. The store is a map and a received message is a handler call.
  Listener registration and cleanup are not modelled. Each write posts
  from a fresh channel object, so the writing tab's own listener receives
  the notification as well; the `Scenario.*EchoHarmless` lemmas show each
  such echo is harmless when it arrives right after its write. An echo
  delayed past a later write of the same tab is not modelled. The storage
  event reaches other tabs only.
- JSON text parsing. An entry is blank, malformed or a parsed envelope. A
  payload that parses but is neither falsy nor a list of records (a number,
  an object) cannot be represented.
- Sync.InitialLoad: requires `WellKinded(store)`. No payload of one record
  kind may sit under the other kind's key. The application never writes
  such a payload, and every writing handler keeps the store well-kinded.
- Sync.HandleBroadcast: requires `FitsKey(key, value)`, for the same reason.
- Sync.HandleStorageEvent: requires `WellKinded(store)`, for the same reason.
  A storage event without a key, as `clear()` fires, is a key that matches
  neither collection.
- Handlers.AddAssignment: requires a logged-in user once the guard passes.
  The source dereferences `currentUser.id` there and would throw.
  `SubmitAssignment` and `ConfirmSubmit` have the same requirement.
- Clocks. `Date.now()` ids and timestamps, `toISOString` and
  `toLocaleDateString` are left out. Ids and timestamps are parameters, and
  nothing makes the ids unique.
- `isOverdue`'s date parsing and comparison. Overdue is an input.
- The asynchronous `FileReader`. The data URL is a parameter, and the submit
  completes at once. So the model does not show the `onload` closure
  appending to the submissions list captured when the read started. An
  update that arrives from another tab during the read is therefore not
  shown being overwritten.
- The instructor dashboard's file download (`atob`, `Blob`, DOM), its
  floating-point percentage and its KB display. Its `getStudentSubmission`
  is the same search as `Queries.IsSubmitted`.
- `alert`, `console` and `window.confirm`. Alerts are `Alert` values and the
  confirmation is a boolean.

## Findings

| source | as written | input that shows it | evidently intended | confidence | as-written member | corrected member |
|---|---|---|---|---|---|---|
| src/components/admin/AdminDashboard.jsx:162-169 | the edit button (the table view's, at lines 278-284, is the same) only calls `onEditDeadlineChange(assignment.deadline)`; no code anywhere sets `editingId` to an id, and the date editor is shown only when `editingId === assignment.id` | a fresh tab with the seeds: pressing edit on a1 leaves `editingId` null, so no editor appears and `handleSaveDeadline` cannot be reached | the button also sets `editingId` to the assignment's id | high (not executed) | DeadlineEditor.EditorNeverOpens | DeadlineEditor.EditRoundTrip |

# Activity roster: a Dafny model

This project models the core of a small school-activities application
(Mergington High School). Each activity has a description, a schedule, a
capacity (`max_participants`) and an ordered list of participant emails.
Students sign up for an activity or are unregistered from it. A browser
client lists the roster, forwards signups and unregisters, and shows one
feedback message that clears itself.

The model has five modules plus a small `Option` type (`wrappers.dfy`):

- `Activities` (`activities.dfy`) is the shared vocabulary: the `Activity`
  record, the ordered `Snapshot` a client receives (JSON object entries in
  key order), and the requests a client issues.
- `Roster` (`roster.dfy`) is the store behind the `/api/activities`
  endpoints. `Store` is a class holding the `map` from activity name to
  record. `Signup`, `Unregister` and `List` update and read it in place.
  Each mutating method is tied to a pure step function (`SignupStep`,
  `UnregisterStep`). The store's behaviour follows the assertions of its
  test suite: messages, error details, and what a later list observes.
  Lemmas prove the scenarios of those tests for all inputs: signup then unregister
  restores the table, a second signup is refused, membership is per
  activity. They also prove the no-duplicate invariant.
- `Controller` (`controller.dfy`) models `App.jsx`. `App` is a class with
  the three state cells (`activities`, `loading`, `message`), the pending
  auto-clear timer, and a log of the requests issued. The awaited answer of
  each request is a method parameter. The load the component starts on
  mount (`App.jsx:14-16`) is the environment's first call of
  `LoadActivities` after the constructor.
- `Form` (`form.dfy`) models `SignupForm.jsx`. `SignupForm` is a class with
  the two fields. `Submit` is guarded by non-emptiness, calls the
  controller's signup handler, then resets both fields. `Options` gives the
  selector's values.
- `Card` (`card.dfy`) models `ActivityCard.jsx` as pure functions: spots
  left, the participant rows, and the confirmation-gated delete.

Lemmas in `Form` and `Card` connect the client to the store. A selector
option taken from a store snapshot never gets NotFound. A confirmed delete
on a card built from the store's roster is accepted and frees one spot.

Two behaviours worth stating on their own:

- A failed load keeps the previous snapshot: `App.jsx:33-37` only sets the
  message, so the cards of the last successful load stay shown.
- The store has no `Full` error; see "Left out".

## Model

| member | source | states |
|---|---|---|
| `Roster.Detail` | tests/test_app.py:66-134 | each failure kind carries its non-empty detail text ("Activity not found", "Student already signed up for this activity", "Student not signed up for this activity"), which is the text the client's error banner shows (see `Form.RefusalShownVerbatim`) |
| `Roster.RemoveFirst` | tests/test_app.py:95-112 | a list without the email is returned unchanged; a list holding it comes back exactly one shorter |
| `Roster.RemoveFirstCutsFirst` | tests/test_app.py:95-112 | the result is the list with the position of the first occurrence of the email cut out, the order of the rest kept |
| `Roster.RemoveFirstCounts` | tests/test_app.py:95-112 | removal takes away exactly one occurrence of the email and keeps every other element (multiset difference) |
| `Roster.RemoveFirstDistinct` | tests/test_app.py:95-112 | on a duplicate-free list, removal keeps it duplicate-free, leaves exactly the other members, and shortens it by one exactly when the email was there |
| `Roster.RemoveFirstAppended` | tests/test_app.py:95-112 | removing an email just appended to a list that lacked it gives back the original list |
| `Roster.SignupStep` | tests/test_app.py:51-92 | unknown activity gives NotFound and no change; an existing participant gives AlreadyRegistered and no change; otherwise "Signed up {email} for {name}", the email appended at the end, other fields and every other activity unchanged |
| `Roster.UnregisterStep` | tests/test_app.py:95-134 | unknown activity gives NotFound; a non-participant gives NotRegistered; both leave the table unchanged; otherwise "Unregistered {email} from {name}", the list one shorter, other fields and activities unchanged |
| `Roster.UnregisterRemovesOne` | tests/test_app.py:95-112 | a successful unregister removes one occurrence of the email and keeps every other participant |
| `Roster.SignupKeepsConsistent` | tests/test_app.py:76-92 | a signup keeps every participant list free of duplicates |
| `Roster.UnregisterKeepsConsistent` | tests/test_app.py:95-112 | an unregister keeps every list free of duplicates, and the email is no longer a participant of that activity afterwards |
| `Roster.SignupThenUnregister` | tests/test_app.py:95-112 | signup of a new email then unregister both succeed with their messages; the email is listed in between and gone after; the table is restored exactly |
| `Roster.DuplicateSignup` | tests/test_app.py:76-92 | the first signup succeeds iff the email was absent; the second always fails with AlreadyRegistered and changes nothing; the list grows by at most one |
| `Roster.SignupForTwoActivities` | tests/test_app.py:151-165 | after signing one email up for two different activities it is a participant of both; each signup that found it absent succeeded |
| `Roster.Store.constructor` | tests/test_app.py:7 | the store starts with the provisioned table |
| `Roster.Store.List` | tests/test_app.py:137-148 | the listing is the whole current table, every activity with its full record |
| `Roster.Store.Signup` | tests/test_app.py:51-92 | response and new table are those of `SignupStep`; the no-duplicate invariant is kept |
| `Roster.Store.Unregister` | tests/test_app.py:95-134 | response and new table are those of `UnregisterStep`; the no-duplicate invariant is kept |
| `Activities.Names` | frontend/src/components/SignupForm.jsx:44 | the keys of a snapshot, one per entry, in key order |
| `Controller.ErrorText` | frontend/src/App.jsx:48-66 | a failure banner is never empty; it is the non-empty detail when there is one, otherwise the operation's fallback text |
| `Controller.Render` | frontend/src/App.jsx:80-93 | loading text exactly while loading; otherwise one card per activity in snapshot order, and the "No activities available." notice exactly when the snapshot is empty |
| `Controller.MutationCalls` | frontend/src/App.jsx:43-67 | a signup or unregister issues its request first, then exactly one reload on success and none on failure |
| `Controller.App.constructor` | frontend/src/App.jsx:9-11 | empty activities, `loading` true, empty message, no pending clear, no request yet |
| `Controller.App.SetMessage` | frontend/src/App.jsx:18-26 | a non-empty message schedules a new clear with a number never used before; any previous pending clear is replaced; an empty message leaves none pending |
| `Controller.App.TimerFires` | frontend/src/App.jsx:21-23 | only the pending clear empties the message; a cancelled timer changes nothing |
| `Controller.App.Close` | frontend/src/App.jsx:103 | closing empties the message at once and cancels its pending clear |
| `Controller.CancelledClearsNeverFire` | frontend/src/App.jsx:18-26 | a clear cancelled by closing or by a newer message does not clear the later message; the clear of the message now shown does |
| `Controller.App.LoadActivities` | frontend/src/App.jsx:28-41 | one list request; success replaces the snapshot and keeps the message; failure keeps the snapshot and shows the load error; `loading` ends false |
| `Controller.App.Mutate` | frontend/src/App.jsx:43-67 | on success the server message is shown with its own fresh clear (replacing any pending one) and one reload follows, whose failure overrides the message and schedules the next clear; on failure the error text is shown with a fresh clear, with no reload and nothing else changed |
| `Controller.App.HandleSignup` | frontend/src/App.jsx:43-54 | as `Mutate`, with a signup request and the "Failed to sign up. Please try again." fallback |
| `Controller.App.HandleUnregister` | frontend/src/App.jsx:56-67 | as `Mutate`, with an unregister request and the "Failed to unregister. Please try again." fallback |
| `Form.Options` | frontend/src/components/SignupForm.jsx:43-48 | the empty placeholder first, then exactly the snapshot's keys in key order |
| `Form.OptionsNameKnownActivities` | frontend/src/components/SignupForm.jsx:11-48 | the placeholder never passes the submit guard; every other option of a store snapshot names a known activity, so signing up through it never gets NotFound |
| `Form.EveryActivityOffered` | frontend/src/components/SignupForm.jsx:44-48 | every activity of the store appears among the selector's options |
| `Form.SignupForm.constructor` | frontend/src/components/SignupForm.jsx:5-6 | both fields start empty |
| `Form.SignupForm.EditEmail` | frontend/src/components/SignupForm.jsx:30 | typing sets the email and leaves the selection |
| `Form.SignupForm.Select` | frontend/src/components/SignupForm.jsx:40 | choosing sets the selection and leaves the email |
| `Form.SignupForm.Submit` | frontend/src/components/SignupForm.jsx:8-20 | with an empty field nothing is called and nothing changes; otherwise the signup handler runs once with (activity, email) in that order, the controller ends in exactly the state `HandleSignup` promises (message, pending clear, snapshot, loading, timer count), and both fields are emptied whatever the outcome |
| `Form.RefusalShownVerbatim` | frontend/src/App.jsx:48-66 | a signup or unregister the store refuses is shown with the store's own detail text, never the client's fallback |
| `Form.RefusedSubmitKeepsItsBanner` | frontend/src/components/SignupForm.jsx:8-20 | a refused signup submitted through the form shows the store's detail as an error, and the clear scheduled for the earlier message does not remove it |
| `Card.SpotsLeft` | frontend/src/components/ActivityCard.jsx:4 | spots left plus participants is the capacity; the count goes negative exactly when the list exceeds the capacity (no clamping) |
| `Card.Participants` | frontend/src/components/ActivityCard.jsx:22-37 | the "No participants yet" placeholder exactly for an empty list; otherwise one row, with its delete button, per participant in list order |
| `Card.HandleDelete` | frontend/src/components/ActivityCard.jsx:6-10 | an unregister request is forwarded exactly when the confirmation is accepted, with the card's name and the row's email |
| `Card.SpotsAfterSignup` | frontend/src/components/ActivityCard.jsx:4 | a successful signup lowers the spots left by one; a refused one leaves them |
| `Card.SpotsAfterUnregister` | frontend/src/components/ActivityCard.jsx:4 | a successful unregister raises the spots left by one; a refused one leaves them |
| `Card.ConfirmedDeleteSucceeds` | frontend/src/components/ActivityCard.jsx:6-34 | on a card built from the store's roster, a confirmed delete on row k asks to unregister that row's email from that activity, the store accepts it, and one spot is freed |

## Left out

- The backend module `src/app.py` is not part of this model. The store is
  modelled from what its tests assert. Unregister removes the first
  occurrence, as a Python list's `remove` does; with the no-duplicate
  invariant this is the same as removing the email.
- Capacity enforcement: no test asserts a refusal for a full activity, so
  there is no `Full` error and no proved capacity bound. `maxParticipants` is
  kept as data and shown through `SpotsLeft`, which may go negative.
- The seed roster (for example, that "Chess Club" and "Programming Class"
  exist) belongs to `src/app.py`. The store takes its table as a
  constructor argument.
- HTTP status codes (200/404/400), routing, the test client, the reset
  fixture, and percent-encoding of names and emails in URLs.
- `frontend/src/services/api.js`, the `fetch` client. A failed request is
  `MutationOutcome.Failed(detail)`, where `detail` is the `message` of the
  error that client threw. Any list failure is `LoadFailed`.
- Controller.ErrorText: the API client substitutes its own shorter text
  ("Failed to sign up", "Failed to unregister", `api.js:32,55`) when the
  server sends no detail. So the controller's longer fallback appears only
  for a thrown error whose message is empty; which message a network
  failure carries is not modelled.
- Concurrency: overlapping submissions, responses arriving out of order, and
  store-side locking. Each handler is one atomic transition whose awaited
  answers (`outcome`, `reload`) are parameters.
- Controller.App.LoadActivities: `loading` is true only while the request is
  in flight. Since the request is atomic here, the contract states only
  that `loading` ends false.
- The 5000 ms delay of the auto-clear. A timer is a number; firing is the
  `TimerFires` method, which the environment may call at any time.
- Rendering details: JSX markup, CSS, the `MessageBanner` component (only
  its close callback is modelled) and the browser's confirmation dialog,
  which is a boolean parameter.
- Roster.SignupStep, Roster.UnregisterStep: the tests only check that the
  response message contains "Signed up {email} for {name}" or
  "Unregistered {email} from {name}" (`tests/test_app.py:58,107`). The model
  takes the message to be exactly that text.
- The success message `result.message` is taken to be a string. A missing
  message (JavaScript `undefined`) is not modelled.

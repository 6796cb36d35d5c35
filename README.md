# pocketclass front end — a verified model

pocketclass is a class-booking web client. Instructors publish time slots
("availabilities") and students book them. This project models in Dafny the
client-side logic of its React components:

- the instructor dashboard: the newest-first sort, done in place; adding,
  replacing and removing availabilities; the loading effect; and the
  "Expired" countdown;
- the add-availability and edit-availability forms: validation, the patch
  of changed fields, and the request bodies;
- the registration and sign-in forms: field validation, `handleChange`, and
  submission, including the mapping of sign-in error codes to messages;
- the student dashboard: turning snapshot documents into records, and the
  filter on the user's enrolment;
- the home page: the cards with their seats left, and which view takes
  precedence;
- the booking dialog: the signed-in user, the disabled-button rule, the
  not-logged-in guard, and the booking request.

The model follows the shape of each component:

- Components whose handlers update state in place are classes:
  - `InstructorDashboard.Dashboard`
  - `EditAvailability.Editor`
  - `AddAvailability.Adder`
  - `Register.Registration`
  - `Login.LoginScreen`
  - `ClassBookModal.BookModal`

  Their fields are the component's state and their methods are its
  handlers.
- The two snapshot-driven pages are value state plus one function per
  handler: `StudentDashboard` and `HomePage`.
- The sort works in place on an `array`.

The outcomes of the outside world are parameters of the handlers:

- server replies (`Common.Reply`: a status and the body's `message`, or no
  response at all);
- the sign-in outcome;
- the current instant;
- the date instant.

One module per component:

- `InstructorDashboard`, `EditAvailability`, `AddAvailability`, `Register`,
  `Login`, `StudentDashboard`, `HomePage`, `ClassBookModal`.

Shared modules:

- `Common`: options, replies, toasts, subsequences.
- `TimeOfDay`: `HH:MM` strings, and the proof that JavaScript's string `<`
  orders them as clock times.
- `Bookings`: booking documents, records and seats.

Where the code departs from what it evidently intends, the model follows the
code:

- the edit request body carries a stray `method: "PUT"` key;
- the add form's submit handler rejects today's date (see Findings);
- the countdown ignores the start time (see Findings);
- the seats left are not clamped at zero;
- registration keeps the previous validation errors on screen when the form
  passes validation.

## Model

| member | source | states |
|---|---|---|
| InstructorDashboard.IndexOfNewest | src/Components/instructorsComponents/InstructorDashboard.js:28-32 | the returned position holds an entry at least as new as every entry from `lo` on |
| InstructorDashboard.SortAvailabilities | src/Components/instructorsComponents/InstructorDashboard.js:27-33 | after the in-place sort the array is newest first by `createdAt` and holds the same entries, counted with multiplicity |
| InstructorDashboard.NewestFirstDeterminesTimestamps | src/Components/instructorsComponents/InstructorDashboard.js:28-32 | any two newest-first orderings of the same entries agree on the timestamp at every position; only ties among equal timestamps are left open |
| InstructorDashboard.NewestFirstSameTop | src/Components/instructorsComponents/InstructorDashboard.js:28-32 | two newest-first orderings of the same entries have the same length and the same first timestamp |
| InstructorDashboard.NewestFirstWithout | src/Components/instructorsComponents/InstructorDashboard.js:28-32 | removing one entry keeps a list newest first |
| InstructorDashboard.TailsAgree | src/Components/instructorsComponents/InstructorDashboard.js:28-32 | removing a shared first entry from two newest-first orderings of the same entries leaves two newest-first orderings of the same entries |
| InstructorDashboard.ReplaceById | src/Components/instructorsComponents/InstructorDashboard.js:65-70 | same length; every entry with the updated id becomes the update; every other entry is unchanged in place |
| InstructorDashboard.RemoveById | src/Components/instructorsComponents/InstructorDashboard.js:74-77 | the filtered list is never longer |
| InstructorDashboard.RemoveByIdKeepsOthers | src/Components/instructorsComponents/InstructorDashboard.js:74-77 | removal keeps the order of the rest and leaves no entry with the id; every other entry keeps its count |
| InstructorDashboard.RemoveAfterReplace | src/Components/instructorsComponents/InstructorDashboard.js:65-77 | replacing by an id and then deleting that id equals deleting it directly |
| InstructorDashboard.RemoveIsIdempotent | src/Components/instructorsComponents/InstructorDashboard.js:74-77 | deleting the same id twice removes nothing more |
| InstructorDashboard.CountdownTo | src/Components/instructorsComponents/InstructorDashboard.js:37-41 | 'Expired' exactly when the start is not after now; otherwise a positive distance that reaches the start |
| InstructorDashboard.CountdownAsWritten | src/Components/instructorsComponents/InstructorDashboard.js:37-41 | as written, the row's countdown is expired exactly when the date's midnight has passed, whatever the start time |
| InstructorDashboard.ClassLaterTodayShownExpired | src/Components/instructorsComponents/InstructorDashboard.js:120 | a class at 18:00 today is shown 'Expired' at 09:00 |
| InstructorDashboard.CountdownToSlot | src/Components/instructorsComponents/InstructorDashboard.js:120 | corrected: expired exactly when date plus start time has passed; where it differs from the code, now lies between the date's midnight and the start |
| InstructorDashboard.Dashboard.constructor | src/Components/instructorsComponents/InstructorDashboard.js:10-16 | empty list, loading, no modal open, nothing selected |
| InstructorDashboard.Dashboard.LoadProfile | src/Components/instructorsComponents/InstructorDashboard.js:18-25 | with availabilities: the profile's own array is sorted in place, becomes the list, and loading ends; without them: still loading, list kept; nothing else changes |
| InstructorDashboard.Dashboard.HandleAddAvailability | src/Components/instructorsComponents/InstructorDashboard.js:58-63 | the new list is newest first and is the old list plus the new entry, as a multiset; the add modal closes; nothing else changes |
| InstructorDashboard.Dashboard.HandleUpdateAvailability | src/Components/instructorsComponents/InstructorDashboard.js:65-72 | the list is replaced by id; the edit modal closes; nothing else changes |
| InstructorDashboard.Dashboard.HandleDeleteAvailability | src/Components/instructorsComponents/InstructorDashboard.js:74-79 | the list is filtered by id; the delete modal closes; nothing else changes |
| InstructorDashboard.Dashboard.OpenEditModal | src/Components/instructorsComponents/InstructorDashboard.js:46-49 | the chosen entry is selected for editing and the edit modal opens; nothing else changes |
| InstructorDashboard.Dashboard.OpenDeleteModal | src/Components/instructorsComponents/InstructorDashboard.js:52-55 | the chosen entry is selected for deletion and the delete modal opens; nothing else changes |
| Common.Resolves | src/Components/instructorsComponents/EditAvaliability.js:39-45 | a request resolves exactly on a response with a 2xx status; anything else reaches the catch block |
| Common.CaughtMessage | src/Components/instructorsComponents/EditAvaliability.js:57 | the caught message is never empty: the response's message when it has a non-empty one, else "Something went wrong!" |
| TimeOfDay.StrLessIrreflexive | src/Components/instructorsComponents/Addavalilability.js:25 | `t >= t` always holds, so equal start and end times always fail |
| TimeOfDay.StrLessIsClockOrder | src/Components/instructorsComponents/Addavalilability.js:25 | for well-formed `HH:MM` strings, string `<` holds exactly when the first is earlier on the clock |
| EditAvailability.InitialForm | src/Components/instructorsComponents/EditAvaliability.js:8-11 | each input starts at the record's value, or "" where the record lacks the field |
| EditAvailability.Changed | src/Components/instructorsComponents/EditAvaliability.js:17-20 | a field counts as changed exactly when its input is filled in and, where the record has the field, differs from it |
| EditAvailability.HasChanges | src/Components/instructorsComponents/EditAvaliability.js:15-22 | holds exactly when some field counts as changed |
| EditAvailability.ComputePatch | src/Components/instructorsComponents/EditAvaliability.js:15-37 | the patch holds exactly the filled-in fields that differ from the record, with their form values; none is empty; it is non-empty exactly when `hasChanges()` holds |
| EditAvailability.UntouchedFormHasNoChanges | src/Components/instructorsComponents/EditAvaliability.js:8-22 | a form left as opened has no changes |
| EditAvailability.ClearingIsNoChange | src/Components/instructorsComponents/EditAvaliability.js:17-20 | an emptied field never counts as changed |
| EditAvailability.PatchIsUnique | src/Components/instructorsComponents/EditAvaliability.js:33-37 | the patch is determined by the record and the form |
| EditAvailability.PatchEntries | src/Components/instructorsComponents/EditAvaliability.js:42 | the spread puts each patched field under its own JSON key, with its value, and adds no other key |
| EditAvailability.RequestBody | src/Components/instructorsComponents/EditAvaliability.js:39-43 | the body's keys are "method", "instructorId" and the patched fields' names; "method" is "PUT", the instructor id is the user's, each patched field carries its value |
| EditAvailability.Editor.constructor | src/Components/instructorsComponents/EditAvaliability.js:7-12 | the inputs start from the record; not loading |
| EditAvailability.Editor.SetField | src/Components/instructorsComponents/EditAvaliability.js:8-11 | typing sets one input and leaves the other three alone |
| EditAvailability.Editor.Submit | src/Components/instructorsComponents/EditAvaliability.js:25-61 | without changes: nothing is sent and "No changes made." is shown; otherwise the request carries the record id, the user id and exactly the patch; the toast follows the reply; loading ends false; the inputs keep their values |
| AddAvailability.StartOfDay | src/Components/instructorsComponents/Addavalilability.js:21 | the midnight of the day that contains now |
| AddAvailability.ValidateAsWritten | src/Components/instructorsComponents/Addavalilability.js:16-30 | as written: missing fields first, then any date instant before now, then string order of the times; passes exactly when all three checks pass; with the fields filled and the date instant not before now, unordered times fail with the time-order message |
| AddAvailability.TodayRejectedAsWritten | src/Components/instructorsComponents/Addavalilability.js:21 | as written, today's date is "in the past" at every instant but midnight; the corrected check accepts it |
| AddAvailability.Validate | src/Components/instructorsComponents/Addavalilability.js:16-30 | corrected: missing fields first; the past-date failure exactly for days before today; with the fields filled and the day not past, it passes exactly when the start is before the end and otherwise fails with the time-order message; a pass has well-formed start before end on the clock; equal times fail |
| AddAvailability.CorrectionOnlyAdmitsToday | src/Components/instructorsComponents/Addavalilability.js:21 | whatever the as-written check accepts the corrected one accepts; the two differ only on a filled form dated today before now, which the code rejects as in the past |
| AddAvailability.PastMeansEarlierDay | src/Components/instructorsComponents/Addavalilability.js:21 | for a date given by its midnight, the corrected check rejects exactly earlier calendar days |
| AddAvailability.InstructorName | src/Components/instructorsComponents/Addavalilability.js:40 | the name is the first name, one space, then the last name |
| AddAvailability.Adder.constructor | src/Components/instructorsComponents/Addavalilability.js:7-13 | empty inputs, not loading, no success message |
| AddAvailability.Adder.Submit | src/Components/instructorsComponents/Addavalilability.js:33-65 | the form is checked by the code's own check, so today's date is refused; an invalid form sends nothing, shows the first failing check's message and changes nothing; a valid form sends the four fields with the profile's full name, email and contact; only the expected reply clears the inputs and sets the confirmation; loading ends false |
| Register.RegisterForm.Set | src/Components/Register.js:37-43 | the named field takes the value; the others are unchanged |
| Register.ErrorsAfterMeaning | src/Components/Register.js:24-35 | after the first n checks, the errors are the empty fields among the first n checked, each with its message |
| Register.EveryFieldChecked | src/Components/Register.js:26-33 | every one of the eight fields is checked |
| Register.Errors | src/Components/Register.js:24-35 | an entry exactly for each empty field, with that field's message |
| Register.Validate | src/Components/Register.js:24-35 | the eight conditional assignments build exactly the error object above |
| Register.ChangeAffectsOnlyItsError | src/Components/Register.js:24-43 | editing a field changes only that field's error: filling it removes the error, clearing it adds the error |
| Register.Registration.constructor | src/Components/Register.js:9-22 | empty form, not loading, no errors |
| Register.Registration.HandleChange | src/Components/Register.js:37-43 | one field of the form changes |
| Register.Registration.HandleSubmit | src/Components/Register.js:45-79 | sends the form exactly when no field is empty; otherwise stores the errors; only the expected message resets the form and navigates to login; other replies show their toast; a failure without a response shows none; loading ends false |
| Login.LoginForm.Set | src/Components/LoginUser.js:25-31 | the named field takes the value; the other is unchanged |
| Login.Validate | src/Components/LoginUser.js:18-23 | an entry exactly for each empty field, with that field's message |
| Login.AuthErrorMessage | src/Components/LoginUser.js:72-85 | each of the four sign-in codes has its message; the fallback "Login failed" is given exactly for every other code or none |
| Login.MessagesTellCodesApart | src/Components/LoginUser.js:72-85 | two failures show the same message only if they have the same code or neither code is known |
| Login.LoginScreen.constructor | src/Components/LoginUser.js:11-16 | empty form, not loading, no errors |
| Login.LoginScreen.HandleChange | src/Components/LoginUser.js:25-31 | one field of the form changes |
| Login.LoginScreen.HandleSubmit | src/Components/LoginUser.js:33-91 | with a missing field: only the errors are stored; otherwise sign-in is attempted; a token is posted exactly after a successful sign-in; home opens exactly on an `ok` answer; sign-in failures show their code's message; an unreadable answer shows "Login failed"; a non-`ok` answer shows nothing; loading ends false |
| Bookings.ToRecord | src/Components/HomePage.js:17-20 | the record carries the document's data, and its id is the data's `id` when present, else the document id |
| Bookings.ToRecords | src/Components/HomePage.js:17-20 | one record per document, in order |
| Bookings.RecordIdsDistinct | src/Components/HomePage.js:17-20 | distinct document ids give distinct record ids, as long as no data carries an `id` |
| Bookings.DataIdCanCollide | src/Components/HomePage.js:17-20 | an `id` stored in the data can make two records share an id |
| Bookings.AvailableSeats | src/Components/HomePage.js:33-35 | seats left plus seats booked is the capacity; no seat is left exactly when booked reaches capacity |
| StudentDashboard.AnyStudentIs | src/Components/studentComponents/StudentDashboard.js:23 | true exactly when some student has the user's id |
| StudentDashboard.MyBookings | src/Components/studentComponents/StudentDashboard.js:22-24 | fails exactly when some record lacks `students`; otherwise keeps only bookings the user is enrolled in |
| StudentDashboard.MyBookingsIsSubsequence | src/Components/studentComponents/StudentDashboard.js:22-24 | the kept bookings come in the snapshot's order |
| StudentDashboard.MyBookingsKeepsExactlyTheEnrolled | src/Components/studentComponents/StudentDashboard.js:22-24 | each enrolled booking is kept as often as it occurs; each other booking is dropped |
| StudentDashboard.EnrolledEverywhereKeepsAll | src/Components/studentComponents/StudentDashboard.js:22-24 | when the user is in every booking, all bookings are kept |
| StudentDashboard.OnSnapshot | src/Components/studentComponents/StudentDashboard.js:16-28 | if the filter fails, nothing is set; otherwise the kept bookings are set and loading ends |
| StudentDashboard.OnError | src/Components/studentComponents/StudentDashboard.js:29-32 | only loading changes, to false |
| StudentDashboard.OpenCancel | src/Components/studentComponents/StudentDashboard.js:38-42 | the booking is selected and the dialog flag is set; the list and loading are kept |
| StudentDashboard.CloseCancel | src/Components/studentComponents/StudentDashboard.js:44-47 | the dialog flag is cleared and the selection removed; the list and loading are kept |
| StudentDashboard.Render | src/Components/studentComponents/StudentDashboard.js:49-83 | loading text exactly while loading; otherwise the empty notice exactly for no bookings, else the cards; in both, the dialog for the selected booking exactly when the flag is set and a booking is selected |
| StudentDashboard.CancelDialogShown | src/Components/studentComponents/StudentDashboard.js:83 | the dialog is on screen exactly when the rendered view, past loading, carries it |
| StudentDashboard.DialogSurvivesEmptiedList | src/Components/studentComponents/StudentDashboard.js:61-83 | when the snapshot that removes the last booking arrives with the dialog open, the empty notice is shown and the dialog stays beside it |
| StudentDashboard.DialogFollowsHandlers | src/Components/studentComponents/StudentDashboard.js:38-47 | on a loaded page, opening the dialog shows it and closing it hides it |
| StudentDashboard.OpenThenCloseIsClose | src/Components/studentComponents/StudentDashboard.js:38-47 | opening then closing the dialog equals closing it |
| StudentDashboard.LoadedStaysLoaded | src/Components/studentComponents/StudentDashboard.js:16-47 | once loaded, no handler brings the loading text back |
| HomePage.OnSnapshot | src/Components/HomePage.js:16-22 | every document becomes a record and loading ends; the dialog state is kept |
| HomePage.OnError | src/Components/HomePage.js:23-26 | only loading changes, to false |
| HomePage.HandleBooking | src/Components/HomePage.js:38-41 | the booking is selected and the dialog opens; the list and loading are kept |
| HomePage.HandleCloseModal | src/Components/HomePage.js:44-47 | the dialog closes and the selection is removed |
| HomePage.CardsOf | src/Components/HomePage.js:69-72 | one card per booking, in order, each with that booking's seats left |
| HomePage.Render | src/Components/HomePage.js:49-63 | loading text takes precedence over the empty notice, which takes precedence over the cards; the dialog shows exactly when open with a booking |
| HomePage.BookNowShowsThatBooking | src/Components/HomePage.js:38-47 | "Book Now" shows the dialog for that very booking; closing removes it |
| HomePage.DialogDrawsOnlyWithBooking | src/Components/studentComponents/ClassBookModal.js:30 | with the page's dialog open, the dialog handed the current booking draws itself exactly when the page's view has a dialog |
| HomePage.FirstSnapshotShowsEveryDocument | src/Components/HomePage.js:16-22 | after a non-empty first snapshot there is one card per document, in order |
| HomePage.FullClassShowsNoSeat | src/Components/HomePage.js:33-35 | a full class's card shows zero or fewer seats |
| ClassBookModal.ToStudentUser | src/Components/studentComponents/ClassBookModal.js:17-21 | id and email are copied; the name is the display name when non-empty, else "Unknown", so never empty |
| ClassBookModal.BookModal.constructor | src/Components/studentComponents/ClassBookModal.js:7-10 | not loading, no error, no user |
| ClassBookModal.BookModal.OnAuthStateChanged | src/Components/studentComponents/ClassBookModal.js:15-25 | a signed-in user is stored as mapped; a sign-out clears the user |
| ClassBookModal.BookModal.HandleBookClass | src/Components/studentComponents/ClassBookModal.js:36-68 | without a user: the not-logged-in error and no request; otherwise the error is cleared and the booking is requested for the stored user; the dialog closes only on status 200; toasts follow the reply; loading ends false |
| ClassBookModal.BookModal.BookDisabled | src/Components/studentComponents/ClassBookModal.js:104 | the Book button is disabled exactly while a request runs or when booked reaches capacity |
| ClassBookModal.FullClassDisablesBooking | src/Components/studentComponents/ClassBookModal.js:104 | a full class has its Book button disabled |
| ClassBookModal.OpenSeatEnablesBooking | src/Components/studentComponents/ClassBookModal.js:104 | with a seat left, the button is disabled exactly while a request runs |

## Left out

- Transport:
  - HTTP and Firebase calls are not performed. Their outcomes are handler
    parameters.
  - JSON parsing is reduced to the `message` field. An absent message is
    modelled as "".
  - A response reply is taken to carry a message, so no access to a
    missing body can throw.
- Relative-time text: the text of `start.from(now, true)` is not modelled.
  The model keeps the distance in milliseconds.
- Parsing of dates and of `createdAt`: both are integer milliseconds given
  as parameters. Date parsing and time zones are not modelled.
- Rendering:
  - JSX markup, toast display and styling are left out.
  - The `required` attribute that the browser enforces on inputs is left
    out.
- Profile.js, DeleteAvaliability.js, CancelClass.js and Navbar.js are not
  part of this model. The only link is that DeleteAvaliability.js:17 calls
  `onDelete`. Addavalilability.js and EditAvaliability.js never call the
  `onAddAvailability` and `onUpdateAvailability` callbacks that the
  dashboard passes them. The dashboard handlers are modelled on their own.
- The buttons that only open or close a modal are not modelled separately
  (InstructorDashboard.js:43-44, 50, 56). Closing is part of the three list
  handlers.
- Listener lifecycle:
  - Subscribing and unsubscribing `onSnapshot` and `onAuthStateChanged` is
    not modelled.
  - Interleaving of asynchronous callbacks is not modelled. Each handler
    runs to completion in one step.
- Navigation is a boolean result, not a router change.
- The states that `loading` passes through while a request is pending are
  not modelled. Only the state before and after a handler is.
- InstructorDashboard.Dashboard.LoadProfile: it sorts the profile's array in
  place, as the code does. It does not model that the dashboard's state
  then shares that array with the profile. The list is a copy of the
  sorted contents.
- InstructorDashboard.SortAvailabilities: it does not fix the relative
  order of entries with equal `createdAt`. The comparator never answers 0,
  so that order depends on the engine.
  `NewestFirstDeterminesTimestamps` shows that everything else is fixed.
- Bookings.AvailableSeats: it models integer counts only. A missing
  `studentsBooked` or `maxStudents` would make the JavaScript value `NaN`.
- Strings are sequences of characters. UTF-16 code units and code points
  are not distinguished.
- StudentDashboard.MyBookings: it models an absent `students` field as a
  failed filter. A present but non-array value is not modelled.
- Register.Registration.HandleSubmit: the toast of a failed request is given
  for a response, and none for a failure without a response. The catch
  block reads `error.response.data.message` without optional chaining, so
  that case throws inside the handler. `loading` still ends false through
  `finally`.

## Findings

| source | as written | input that shows it | evidently intended | confidence | as-written member | corrected member |
|---|---|---|---|---|---|---|
| src/Components/instructorsComponents/Addavalilability.js:21 | `new Date(date) < new Date()` compares the chosen day's midnight (UTC) with the current instant | date = today, at any time after midnight: "Date cannot be in the past." | reject only days before today | not executed | AddAvailability.TodayRejectedAsWritten | AddAvailability.Validate |
| src/Components/instructorsComponents/InstructorDashboard.js:120 | `getTimeRemaining(date, startTime)` (defined at lines 37-41) reads only `date`, so the countdown runs to the date's midnight | a class at 18:00 today, viewed at 09:00: "Expired" | count down to the date plus the start time | not executed | InstructorDashboard.ClassLaterTodayShownExpired | InstructorDashboard.CountdownToSlot |

The submit handler of the add form keeps the check as written, so
`AddAvailability.Adder.Submit` refuses today's date as the code does;
`AddAvailability.CorrectionOnlyAdmitsToday` states that the corrected check
differs from it only there.

/** The student's dashboard (StudentDashboard.js): on each snapshot of the
    `bookings` collection it keeps the bookings whose `students` include
    the signed-in user, and it holds the cancellation dialog's state. The
    component's state is a value; each handler maps it to the next one. */
module StudentDashboard {
  import opened Common
  import opened Bookings

  /** `students.some((student) => student.id === userId)`. */
  function AnyStudentIs(students: seq<Student>, userId: string): (r: bool)
    ensures r <==> exists i :: 0 <= i < |students| && students[i].id == userId
  {
    if students == [] then false
    else students[0].id == userId || AnyStudentIs(students[1..], userId)
  }

  /** The filter's test for one record with a `students` array. */
  predicate Enrolled(b: Booking, userId: string)
    requires b.data.students.Some?
  {
    AnyStudentIs(b.data.students.value, userId)
  }

  /** `bookingsList.filter(...)`: `None` when the test throws because a
      record has no `students` array, which abandons the whole filter. */
  function MyBookings(records: seq<Booking>, userId: string): (r: Option<seq<Booking>>)
    ensures r.None? <==> exists i :: 0 <= i < |records| && records[i].data.students.None?
    ensures r.Some? ==> forall b :: b in r.value ==> b.data.students.Some? && Enrolled(b, userId)
  {
    if records == [] then Some([])
    else if records[0].data.students.None? then None
    else
      var rest := MyBookings(records[1..], userId);
      if rest.None? then
        assert exists i :: 0 <= i < |records[1..]| && records[1..][i].data.students.None?;
        None
      else if Enrolled(records[0], userId) then Some([records[0]] + rest.value)
      else rest
  }

  /** The kept bookings are the input's, in the input's order. */
  lemma {:induction false} MyBookingsIsSubsequence(records: seq<Booking>, userId: string)
    requires MyBookings(records, userId).Some?
    ensures IsSubsequence(MyBookings(records, userId).value, records)
  {
    if records != [] {
      MyBookingsIsSubsequence(records[1..], userId);
    }
  }

  /** Each booking is kept as often as the input holds it if the user is
      enrolled, and not at all otherwise. */
  lemma {:induction false} MyBookingsKeepsExactlyTheEnrolled(records: seq<Booking>, userId: string)
    requires MyBookings(records, userId).Some?
    ensures forall b :: b in records ==> b.data.students.Some?
    ensures forall b :: b in records ==>
              multiset(MyBookings(records, userId).value)[b] ==
              (if Enrolled(b, userId) then multiset(records)[b] else 0)
  {
    if records != [] {
      var head, tail := records[0], records[1..];
      MyBookingsKeepsExactlyTheEnrolled(tail, userId);
      MyBookingsIsSubsequence(tail, userId);
      var kept := MyBookings(tail, userId).value;
      SubsequenceIsSmaller(kept, tail);
      assert records == [head] + tail;
      forall b | b in records
        ensures multiset(MyBookings(records, userId).value)[b] ==
                (if Enrolled(b, userId) then multiset(records)[b] else 0)
      {
        if b !in tail {
          assert multiset(kept)[b] <= multiset(tail)[b] == 0;
        }
      }
    }
  }

  /** The component's state. */
  datatype DashboardState = DashboardState(
    bookings: seq<Booking>,
    loading: bool,
    showCancelModal: bool,
    classToCancel: Option<Booking>)

  const Initial := DashboardState([], true, false, None)

  /** The snapshot callback. When the filter throws, nothing is set. */
  function OnSnapshot(st: DashboardState, docs: seq<Doc>, userId: string): (next: DashboardState)
    ensures MyBookings(ToRecords(docs), userId).None? ==> next == st
    ensures MyBookings(ToRecords(docs), userId).Some? ==>
              next == st.(bookings := MyBookings(ToRecords(docs), userId).value, loading := false)
  {
    var mine := MyBookings(ToRecords(docs), userId);
    if mine.None? then st else st.(bookings := mine.value, loading := false)
  }

  /** The error callback: only the loading flag changes. */
  function OnError(st: DashboardState): (next: DashboardState)
    ensures next == st.(loading := false)
  {
    st.(loading := false)
  }

  /** `handleCancelModal(booking)`. */
  function OpenCancel(st: DashboardState, b: Booking): (next: DashboardState)
    ensures next.classToCancel == Some(b) && next.showCancelModal
    ensures next.bookings == st.bookings && next.loading == st.loading
  {
    st.(classToCancel := Some(b), showCancelModal := true)
  }

  /** `closeModal()`. */
  function CloseCancel(st: DashboardState): (next: DashboardState)
    ensures !next.showCancelModal && next.classToCancel.None?
    ensures next.bookings == st.bookings && next.loading == st.loading
  {
    st.(showCancelModal := false, classToCancel := None)
  }

  datatype View =
    | Loading
    | NoBookings(dialogFor: Option<Booking>)
    | Cards(bookings: seq<Booking>, dialogFor: Option<Booking>)

  /** What the component renders: the loading text while loading; then
      either the notice or one card per kept booking, and in both cases,
      next to them, the dialog for the booking being cancelled while
      `showCancelModal && classToCancel` holds. */
  function Render(st: DashboardState): (v: View)
    ensures v == Loading <==> st.loading
    ensures v.NoBookings? <==> !st.loading && st.bookings == []
    ensures v.Cards? ==> v.bookings == st.bookings
    ensures !v.Loading? ==> (v.dialogFor.Some? <==> st.showCancelModal && st.classToCancel.Some?)
    ensures !v.Loading? && v.dialogFor.Some? ==> v.dialogFor == st.classToCancel
  {
    if st.loading then Loading
    else
      var dialog := if st.showCancelModal then st.classToCancel else None;
      if |st.bookings| == 0 then NoBookings(dialog) else Cards(st.bookings, dialog)
  }

  /** The cancellation dialog is on screen: the page is past loading and
      both `showCancelModal` and `classToCancel` are set, whether or not any
      booking is left to list. */
  predicate CancelDialogShown(st: DashboardState): (shown: bool)
    ensures shown <==> !Render(st).Loading? && Render(st).dialogFor.Some?
  {
    !st.loading && st.showCancelModal && st.classToCancel.Some?
  }

  /** Cancelling the last booking: the snapshot without it may arrive while
      the dialog is still open; the page then shows the empty notice and,
      beside it, the dialog for that booking. */
  lemma DialogSurvivesEmptiedList(st: DashboardState, b: Booking, docs: seq<Doc>, userId: string)
    requires !st.loading
    requires MyBookings(ToRecords(docs), userId) == Some([])
    ensures Render(OnSnapshot(OpenCancel(st, b), docs, userId)) == NoBookings(Some(b))
    ensures CancelDialogShown(OnSnapshot(OpenCancel(st, b), docs, userId))
  {
  }

  /** Opening the dialog on a loaded page shows it, closing it hides it. */
  lemma DialogFollowsHandlers(st: DashboardState, b: Booking)
    requires !st.loading
    ensures CancelDialogShown(OpenCancel(st, b))
    ensures !CancelDialogShown(CloseCancel(st))
  {
  }

  /** Opening the dialog for a booking and closing it leaves the state as
      closing it alone would. */
  lemma OpenThenCloseIsClose(st: DashboardState, b: Booking)
    ensures CloseCancel(OpenCancel(st, b)) == CloseCancel(st)
  {
  }

  /** Once a snapshot is taken in, the loading text is gone for good: later
      snapshots, errors and dialog actions never bring it back. */
  lemma LoadedStaysLoaded(st: DashboardState, docs: seq<Doc>, userId: string, b: Booking)
    requires !st.loading
    ensures !OnSnapshot(st, docs, userId).loading && !OnError(st).loading
    ensures !OpenCancel(st, b).loading && !CloseCancel(st).loading
  {
  }

  /** A snapshot whose every booking lists the user shows all of them. */
  lemma {:induction false} EnrolledEverywhereKeepsAll(records: seq<Booking>, userId: string)
    requires forall i :: 0 <= i < |records| ==>
               records[i].data.students.Some? && Enrolled(records[i], userId)
    ensures MyBookings(records, userId) == Some(records)
  {
    if records != [] {
      EnrolledEverywhereKeepsAll(records[1..], userId);
      assert [records[0]] + records[1..] == records;
    }
  }
}

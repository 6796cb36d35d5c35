/** The booking dialog (ClassBookModal.js): it follows the signed-in user,
    draws nothing without a booking, disables its button while a request
    runs or when no seat is left, and books the class for the signed-in
    user, closing itself only on a 200 reply. */
module ClassBookModal {
  import opened Common
  import opened Bookings

  /** The Firebase user `onAuthStateChanged` reports. */
  datatype AuthUser = AuthUser(uid: string, displayName: Option<string>, email: Option<string>)

  /** The user as the dialog stores it. */
  datatype StudentUser = StudentUser(studentId: string, studentName: string, studentEmail: Option<string>)

  const UnknownName := "Unknown"
  const NotLoggedInMessage := "You must be logged in to book a class."
  const BookedMessage := "Class booked successfully!"

  /** `{ studentId: uid, studentName: displayName || 'Unknown', studentEmail: email }`:
      the name is never empty, and a non-empty display name is kept. */
  function ToStudentUser(u: AuthUser): (s: StudentUser)
    ensures s.studentId == u.uid && s.studentEmail == u.email
    ensures s.studentName != ""
    ensures u.displayName.Some? && u.displayName.value != "" ==> s.studentName == u.displayName.value
    ensures u.displayName.None? || u.displayName == Some("") ==> s.studentName == UnknownName
  {
    var name := if u.displayName.Some? && u.displayName.value != "" then u.displayName.value else UnknownName;
    StudentUser(u.uid, name, u.email)
  }

  /** The body posted to `/bookclass`. */
  datatype BookRequest = BookRequest(
    bookingId: string,
    instructorId: string,
    studentId: string,
    studentEmail: Option<string>,
    studentName: string,
    classType: string)

  class BookModal {
    const booking: Option<Booking>
    var loading: bool
    var error: Option<string>
    var user: Option<StudentUser>
    /** Whether `onClose` has been called. */
    var closed: bool

    constructor (booking: Option<Booking>)
      ensures this.booking == booking
      ensures !loading && error.None? && user.None? && !closed
    {
      this.booking := booking;
      loading := false;
      error := None;
      user := None;
      closed := false;
    }

    /** The `onAuthStateChanged` callback. */
    method OnAuthStateChanged(current: Option<AuthUser>)
      modifies this
      ensures current.None? ==> user.None?
      ensures current.Some? ==> user == Some(ToStudentUser(current.value))
      ensures loading == old(loading) && error == old(error) && closed == old(closed)
    {
      if current.Some? {
        user := Some(ToStudentUser(current.value));
      } else {
        user := None;
      }
    }

    /** `if (!booking) return null`: the dialog draws itself only for a booking. */
    predicate Renders()
    {
      booking.Some?
    }

    /** `disabled={loading || availableSeats <= 0}` */
    predicate BookDisabled(): (disabled: bool)
      requires Renders()
      reads this
      ensures disabled <==> loading || booking.value.data.studentsBooked >= booking.value.data.maxStudents
    {
      loading || AvailableSeats(booking.value) <= 0
    }

    /** `handleBookClass`, with `reply` the outcome of the POST. Without a
        signed-in user the error is set and nothing is sent. Otherwise the
        error is cleared, the booking is requested for the stored user, and
        the dialog closes only on status 200; any other 2xx status shows the
        reply's message, a rejection the caught message. */
    method HandleBookClass(reply: Reply) returns (request: Option<BookRequest>, toast: Option<Toast>)
      requires Renders()
      modifies this
      ensures user == old(user)
      ensures request.None? <==> user.None?
      ensures request.None? ==>
                && error == Some(NotLoggedInMessage) && toast.None?
                && loading == old(loading) && closed == old(closed)
      ensures request.Some? ==>
                && request.value == BookRequest(booking.value.id, booking.value.data.instructorId,
                                                user.value.studentId, user.value.studentEmail,
                                                user.value.studentName, booking.value.data.classType)
                && error.None? && !loading
      ensures request.Some? ==> (closed <==> old(closed) || (Resolves(reply) && reply.status == 200))
      ensures request.Some? ==>
                toast == Some(if Resolves(reply) && reply.status == 200 then SuccessToast(BookedMessage)
                              else if Resolves(reply) then ErrorToast(reply.message)
                              else ErrorToast(CaughtMessage(reply)))
    {
      if user.None? {
        error := Some(NotLoggedInMessage);
        return None, None;
      }
      loading := true;
      error := None;
      var b := booking.value;
      request := Some(BookRequest(b.id, b.data.instructorId, user.value.studentId,
                                  user.value.studentEmail, user.value.studentName, b.data.classType));
      if Resolves(reply) {
        if reply.status == 200 {
          closed := true;
          toast := Some(SuccessToast(BookedMessage));
        } else {
          toast := Some(ErrorToast(reply.message));
        }
      } else {
        toast := Some(ErrorToast(CaughtMessage(reply)));
      }
      loading := false;
    }
  }

  /** A class whose seats are all taken cannot be booked from the dialog,
      whatever the loading state. */
  lemma FullClassDisablesBooking(m: BookModal)
    requires m.Renders()
    requires m.booking.value.data.studentsBooked >= m.booking.value.data.maxStudents
    ensures m.BookDisabled()
  {
  }

  /** With a seat left, the button is disabled exactly while a request runs. */
  lemma OpenSeatEnablesBooking(m: BookModal)
    requires m.Renders()
    requires m.booking.value.data.studentsBooked < m.booking.value.data.maxStudents
    ensures m.BookDisabled() <==> m.loading
  {
  }
}

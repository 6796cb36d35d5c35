/** The add-availability form (Addavalilability.js): `validateForm` with its
    three checks in order, the request it sends (the instructor's full name
    built from the profile) and the success handling that clears the form.
    The date check as written compares the date's midnight (UTC) with the
    current instant and so rejects today's date; the handler keeps that
    behaviour, and the corrected check beside it compares calendar days. */
module AddAvailability {
  import opened Common
  import TimeOfDay

  const MsPerDay := 86_400_000

  const RequiredMessage := "All fields are required!"
  const PastDateMessage := "Date cannot be in the past."
  const TimeOrderMessage := "End time must be later than start time."
  const AddedMessage := "Availability added successfully"
  const ConfirmationText := "Booking availability successfully added!"

  datatype Profile = Profile(firstname: string, lastname: string, email: string, contact: string)

  /** The four controlled inputs. */
  datatype Form = Form(date: string, startTime: string, endTime: string, classType: string)

  const EmptyForm := Form("", "", "", "")

  datatype Check = Passed | Failed(message: string)

  predicate AllFilled(form: Form)
  {
    form.date != "" && form.startTime != "" && form.endTime != "" && form.classType != ""
  }

  /** Midnight (UTC) of the day that contains `now`. */
  function StartOfDay(now: int): (midnight: int)
    ensures midnight <= now < midnight + MsPerDay
    ensures midnight % MsPerDay == 0
  {
    now - now % MsPerDay
  }

  /** `validateForm` as written: `dateMs` is the instant `new Date(date)`
      denotes (midnight UTC of the chosen day) and `now` that of
      `new Date()`. The first failing check decides the message. */
  function ValidateAsWritten(form: Form, dateMs: int, now: int): (r: Check)
    ensures !AllFilled(form) ==> r == Failed(RequiredMessage)
    ensures AllFilled(form) && dateMs < now ==> r == Failed(PastDateMessage)
    ensures AllFilled(form) && now <= dateMs && !TimeOfDay.StrLess(form.startTime, form.endTime) ==>
              r == Failed(TimeOrderMessage)
    ensures r == Passed <==> AllFilled(form) && now <= dateMs && TimeOfDay.StrLess(form.startTime, form.endTime)
  {
    if !AllFilled(form) then Failed(RequiredMessage)
    else if dateMs < now then Failed(PastDateMessage)
    else if !TimeOfDay.StrLess(form.startTime, form.endTime) then Failed(TimeOrderMessage)
    else Passed
  }

  /** As written, a form for today is rejected as "in the past" at every
      instant of the day but midnight itself, although the corrected check
      accepts it. */
  lemma TodayRejectedAsWritten(form: Form, now: int)
    requires AllFilled(form) && TimeOfDay.StrLess(form.startTime, form.endTime)
    requires now % MsPerDay != 0
    ensures ValidateAsWritten(form, StartOfDay(now), now) == Failed(PastDateMessage)
    ensures Validate(form, StartOfDay(now), now) == Passed
  {
  }

  /** `validateForm` with the date check on calendar days: only a day before
      today is in the past. For well-formed times a passing form starts
      before it ends on the clock. */
  function Validate(form: Form, dateMs: int, now: int): (r: Check)
    ensures !AllFilled(form) ==> r == Failed(RequiredMessage)
    ensures AllFilled(form) ==> (r == Failed(PastDateMessage) <==> dateMs < StartOfDay(now))
    ensures r == Passed ==> AllFilled(form) && StartOfDay(now) <= dateMs
    ensures AllFilled(form) && StartOfDay(now) <= dateMs ==>
              (r == Passed <==> TimeOfDay.StrLess(form.startTime, form.endTime))
    ensures AllFilled(form) && StartOfDay(now) <= dateMs && !TimeOfDay.StrLess(form.startTime, form.endTime) ==>
              r == Failed(TimeOrderMessage)
    ensures r == Passed && TimeOfDay.WellFormed(form.startTime) && TimeOfDay.WellFormed(form.endTime) ==>
              TimeOfDay.Minutes(form.startTime) < TimeOfDay.Minutes(form.endTime)
    ensures AllFilled(form) && StartOfDay(now) <= dateMs && form.startTime == form.endTime ==>
              r == Failed(TimeOrderMessage)
  {
    TimeOfDay.StrLessIrreflexive(form.startTime);
    if !AllFilled(form) then Failed(RequiredMessage)
    else if dateMs < StartOfDay(now) then Failed(PastDateMessage)
    else if !TimeOfDay.StrLess(form.startTime, form.endTime) then Failed(TimeOrderMessage)
    else
      if TimeOfDay.WellFormed(form.startTime) && TimeOfDay.WellFormed(form.endTime) then
        TimeOfDay.StrLessIsClockOrder(form.startTime, form.endTime);
        Passed
      else Passed
  }

  /** The two checks disagree only on a form dated today, submitted after
      that day's midnight: the correction accepts it, the code refuses it
      as past. Everything the code accepts, the correction accepts. */
  lemma CorrectionOnlyAdmitsToday(form: Form, dateMs: int, now: int)
    ensures ValidateAsWritten(form, dateMs, now) == Passed ==> Validate(form, dateMs, now) == Passed
    ensures ValidateAsWritten(form, dateMs, now) != Validate(form, dateMs, now) ==>
              && AllFilled(form) && StartOfDay(now) <= dateMs < now
              && ValidateAsWritten(form, dateMs, now) == Failed(PastDateMessage)
  {
  }

  /** For a date given by its midnight, the corrected check rejects exactly
      the days before today's. */
  lemma PastMeansEarlierDay(dateMs: int, now: int)
    requires dateMs % MsPerDay == 0
    ensures dateMs < StartOfDay(now) <==> dateMs / MsPerDay < now / MsPerDay
  {
    var d, n := dateMs / MsPerDay, now / MsPerDay;
    assert dateMs == d * MsPerDay;
    assert StartOfDay(now) == n * MsPerDay;
    if d < n {
      assert d * MsPerDay < n * MsPerDay;
    } else {
      assert d * MsPerDay >= n * MsPerDay;
    }
  }

  /** `${profile.firstname} ${profile.lastname}`: the first name, one
      space, the last name. */
  function InstructorName(profile: Profile): (name: string)
    ensures |name| == |profile.firstname| + 1 + |profile.lastname|
    ensures name[..|profile.firstname|] == profile.firstname
    ensures name[|profile.firstname|] == ' '
    ensures name[|profile.firstname| + 1..] == profile.lastname
  {
    profile.firstname + " " + profile.lastname
  }

  /** The body posted to `/instructoravaliability`. */
  datatype AddRequest = AddRequest(
    instructorId: string,
    instructorName: string,
    email: string,
    contact: string,
    date: string,
    startTime: string,
    endTime: string,
    classType: string)

  class Adder {
    const profile: Profile
    const userId: string
    var date: string
    var startTime: string
    var endTime: string
    var classType: string
    var loading: bool
    var successMessage: string

    function FormValues(): Form
      reads this
    {
      Form(date, startTime, endTime, classType)
    }

    constructor (profile: Profile, userId: string)
      ensures this.profile == profile && this.userId == userId
      ensures FormValues() == EmptyForm && !loading && successMessage == ""
    {
      this.profile := profile;
      this.userId := userId;
      date, startTime, endTime, classType := "", "", "", "";
      loading := false;
      successMessage := "";
    }

    /** `handleAddAvailability`: `dateMs` is the instant of the date field,
        `now` the current instant, `reply` the outcome of the POST. A form
        that fails `validateForm` as written (so also a form dated today,
        see `TodayRejectedAsWritten`) sends nothing and changes nothing. A sent form
        carries the four fields unchanged and the full name; only the
        expected message clears the four fields. */
    method Submit(dateMs: int, now: int, reply: Reply) returns (request: Option<AddRequest>, toast: Toast)
      modifies this
      ensures request.None? <==> ValidateAsWritten(old(FormValues()), dateMs, now).Failed?
      ensures request.None? ==>
                && toast == ErrorToast(ValidateAsWritten(old(FormValues()), dateMs, now).message)
                && FormValues() == old(FormValues())
                && loading == old(loading) && successMessage == old(successMessage)
      ensures request.Some? ==>
                && request.value == AddRequest(userId, InstructorName(profile), profile.email, profile.contact,
                                               old(date), old(startTime), old(endTime), old(classType))
                && !loading
      ensures request.Some? && Resolves(reply) && reply.message == AddedMessage ==>
                && toast == SuccessToast(AddedMessage)
                && FormValues() == EmptyForm && successMessage == ConfirmationText
      ensures request.Some? && !(Resolves(reply) && reply.message == AddedMessage) ==>
                && toast == ErrorToast(if Resolves(reply) then reply.message else CaughtMessage(reply))
                && FormValues() == old(FormValues()) && successMessage == old(successMessage)
    {
      var check := ValidateAsWritten(FormValues(), dateMs, now);
      if check.Failed? {
        return None, ErrorToast(check.message);
      }
      loading := true;
      request := Some(AddRequest(userId, InstructorName(profile), profile.email, profile.contact,
                                 date, startTime, endTime, classType));
      if Resolves(reply) {
        if reply.message == AddedMessage {
          toast := SuccessToast(reply.message);
          successMessage := ConfirmationText;
          date, startTime, endTime, classType := "", "", "", "";
        } else {
          toast := ErrorToast(reply.message);
        }
      } else {
        toast := ErrorToast(CaughtMessage(reply));
      }
      loading := false;
    }
  }
}

/** The edit-availability form (EditAvaliability.js): its four fields start
    from the stored record, `hasChanges` decides whether anything is sent,
    the patch holds exactly the fields that are filled in and differ from
    the record, and the request carries the patch and the instructor id. */
module EditAvailability {
  import opened Common

  datatype Field = Date | StartTime | EndTime | ClassType

  /** The key a field has in the JSON request body. */
  function FieldName(f: Field): string
  {
    match f
    case Date => "date"
    case StartTime => "startTime"
    case EndTime => "endTime"
    case ClassType => "classType"
  }

  /** The availability being edited; `None` where the document lacks the field. */
  datatype Original = Original(
    id: string,
    date: Option<string>,
    startTime: Option<string>,
    endTime: Option<string>,
    classType: Option<string>)
  {
    function Get(f: Field): Option<string>
    {
      match f
      case Date => date
      case StartTime => startTime
      case EndTime => endTime
      case ClassType => classType
    }
  }

  /** The four controlled inputs of the form. */
  datatype Form = Form(date: string, startTime: string, endTime: string, classType: string)
  {
    function Get(f: Field): string
    {
      match f
      case Date => date
      case StartTime => startTime
      case EndTime => endTime
      case ClassType => classType
    }
  }

  /** `value || ''` for a field that may be missing. */
  function OrEmpty(v: Option<string>): string
  {
    if v.Some? then v.value else ""
  }

  /** `useState(availability.date || '')` and its three siblings. */
  function InitialForm(original: Original): (form: Form)
    ensures forall f :: form.Get(f) == OrEmpty(original.Get(f))
  {
    Form(OrEmpty(original.date), OrEmpty(original.startTime),
         OrEmpty(original.endTime), OrEmpty(original.classType))
  }

  /** `value && value !== availability.field`: filled in and different.
      A missing field of the record differs from every string. */
  predicate Changed(original: Original, form: Form, f: Field): (changed: bool)
    ensures changed ==> form.Get(f) != ""
    ensures original.Get(f).None? ==> (changed <==> form.Get(f) != "")
    ensures original.Get(f).Some? ==> (changed <==> form.Get(f) != "" && form.Get(f) != original.Get(f).value)
  {
    form.Get(f) != "" && Some(form.Get(f)) != original.Get(f)
  }

  /** `hasChanges()`: the four tests joined by `||`. */
  predicate HasChanges(original: Original, form: Form): (r: bool)
    ensures r <==> exists f :: Changed(original, form, f)
  {
    Changed(original, form, Date) || Changed(original, form, StartTime) ||
    Changed(original, form, EndTime) || Changed(original, form, ClassType)
  }

  /** `patch` holds exactly the changed fields, each with its form value. */
  predicate IsPatch(patch: map<Field, string>, original: Original, form: Form)
  {
    forall f :: (f in patch <==> Changed(original, form, f)) &&
                (f in patch ==> patch[f] == form.Get(f))
  }

  /** Builds `updatedFields` by the four conditional assignments. The patch
      is non-empty exactly when `hasChanges()` holds, and never carries an
      empty value. */
  method ComputePatch(original: Original, form: Form) returns (patch: map<Field, string>)
    ensures IsPatch(patch, original, form)
    ensures forall f :: f in patch ==> patch[f] != ""
    ensures HasChanges(original, form) <==> patch != map[]
  {
    patch := map[];
    if form.date != "" && Some(form.date) != original.date {
      patch := patch[Date := form.date];
    }
    if form.startTime != "" && Some(form.startTime) != original.startTime {
      patch := patch[StartTime := form.startTime];
    }
    if form.endTime != "" && Some(form.endTime) != original.endTime {
      patch := patch[EndTime := form.endTime];
    }
    if form.classType != "" && Some(form.classType) != original.classType {
      patch := patch[ClassType := form.classType];
    }
    if HasChanges(original, form) {
      assert Date in patch || StartTime in patch || EndTime in patch || ClassType in patch;
    }
  }

  /** A form left as it was opened has no changes, so submitting it sends
      nothing. */
  lemma UntouchedFormHasNoChanges(original: Original)
    ensures !HasChanges(original, InitialForm(original))
  {
  }

  /** Clearing a field never counts as a change. */
  lemma ClearingIsNoChange(original: Original, form: Form, f: Field)
    requires form.Get(f) == ""
    ensures !Changed(original, form, f)
  {
  }

  /** The PUT request: the record id goes in the path, the body is built from
      `{ method: 'PUT', instructorId: userId, ...updatedFields }`. */
  datatype EditRequest = EditRequest(availabilityId: string, instructorId: string, patch: map<Field, string>)

  /** No two fields share a key, and none takes the keys the body sets
      before the spread. */
  lemma FieldNamesAreDistinct()
    ensures forall f, g :: FieldName(f) == FieldName(g) ==> f == g
    ensures forall f :: FieldName(f) != "method" && FieldName(f) != "instructorId"
  {
  }

  /** `...updatedFields`: each patched field under its JSON key. */
  function PatchEntries(patch: map<Field, string>): (entries: map<string, string>)
    ensures entries.Keys == set f | f in patch :: FieldName(f)
    ensures forall f :: f in patch ==> entries[FieldName(f)] == patch[f]
  {
    FieldNamesAreDistinct();
    map f | f in patch :: FieldName(f) := patch[f]
  }

  /** The JSON body as a map from keys to string values. */
  function RequestBody(request: EditRequest): (body: map<string, string>)
    ensures body.Keys == {"method", "instructorId"} + set f | f in request.patch :: FieldName(f)
    ensures body["method"] == "PUT" && body["instructorId"] == request.instructorId
    ensures forall f :: f in request.patch ==> body[FieldName(f)] == request.patch[f]
  {
    FieldNamesAreDistinct();
    map["method" := "PUT", "instructorId" := request.instructorId] + PatchEntries(request.patch)
  }

  /** Two patches of the same record and form are the same patch. */
  lemma PatchIsUnique(p: map<Field, string>, q: map<Field, string>, original: Original, form: Form)
    requires IsPatch(p, original, form) && IsPatch(q, original, form)
    ensures p == q
  {
  }

  const UpdatedMessage := "Availability updated successfully"

  class Editor {
    const original: Original
    const userId: string
    var date: string
    var startTime: string
    var endTime: string
    var classType: string
    var loading: bool

    function FormValues(): Form
      reads this
    {
      Form(date, startTime, endTime, classType)
    }

    constructor (availability: Original, userId: string)
      ensures original == availability && this.userId == userId
      ensures FormValues() == InitialForm(availability) && !loading
    {
      original := availability;
      this.userId := userId;
      date := OrEmpty(availability.date);
      startTime := OrEmpty(availability.startTime);
      endTime := OrEmpty(availability.endTime);
      classType := OrEmpty(availability.classType);
      loading := false;
    }

    /** Typing into one of the inputs. */
    method SetField(f: Field, value: string)
      modifies this
      ensures FormValues().Get(f) == value
      ensures forall g :: g != f ==> FormValues().Get(g) == old(FormValues()).Get(g)
      ensures loading == old(loading)
    {
      match f
      case Date => date := value;
      case StartTime => startTime := value;
      case EndTime => endTime := value;
      case ClassType => classType := value;
    }

    /** `handleEditAvailability`, with `reply` the outcome of the PUT. Without
        changes nothing is sent and "No changes made." is reported. Otherwise
        the patch is sent; afterwards `loading` is false, and the reset of
        the fields after a success leaves every field as it was. */
    method Submit(reply: Reply) returns (request: Option<EditRequest>, toast: Toast)
      modifies this
      ensures request.None? <==> !HasChanges(original, old(FormValues()))
      ensures request.None? ==> toast == ErrorToast("No changes made.") && loading == old(loading)
      ensures request.Some? ==>
                && request.value.availabilityId == original.id
                && request.value.instructorId == userId
                && IsPatch(request.value.patch, original, old(FormValues()))
                && !loading
      ensures request.Some? ==>
                toast == (if Resolves(reply) && reply.message == UpdatedMessage then SuccessToast(reply.message)
                          else if Resolves(reply) then ErrorToast(reply.message)
                          else ErrorToast(CaughtMessage(reply)))
      ensures FormValues() == old(FormValues())
    {
      if !(HasChanges(original, FormValues())) {
        return None, ErrorToast("No changes made.");
      }
      loading := true;
      var patch := ComputePatch(original, FormValues());
      request := Some(EditRequest(original.id, userId, patch));
      if Resolves(reply) {
        if reply.message == UpdatedMessage {
          toast := SuccessToast(reply.message);
          // setDate(updatedFields.date || date) and its three siblings
          date := if Date in patch then patch[Date] else date;
          startTime := if StartTime in patch then patch[StartTime] else startTime;
          endTime := if EndTime in patch then patch[EndTime] else endTime;
          classType := if ClassType in patch then patch[ClassType] else classType;
        } else {
          toast := ErrorToast(reply.message);
        }
      } else {
        toast := ErrorToast(CaughtMessage(reply));
      }
      loading := false;
    }
  }
}

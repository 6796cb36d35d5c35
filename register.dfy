/** The registration form (Register.js): eight required fields, `validate`
    filling an error object field by field, `handleChange` updating one
    field, and `handleSubmit` sending the form only when nothing is
    missing. */
module Register {
  import opened Common

  datatype Field = Firstname | Lastname | Email | Contact | Gender | Dob | Password | Role

  datatype RegisterForm = RegisterForm(
    firstname: string,
    lastname: string,
    email: string,
    contact: string,
    gender: string,
    dob: string,
    password: string,
    role: string)
  {
    function Get(f: Field): string
    {
      match f
      case Firstname => firstname
      case Lastname => lastname
      case Email => email
      case Contact => contact
      case Gender => gender
      case Dob => dob
      case Password => password
      case Role => role
    }

    /** `{ ...formData, [name]: value }` */
    function Set(f: Field, value: string): (r: RegisterForm)
      ensures r.Get(f) == value
      ensures forall g :: g != f ==> r.Get(g) == Get(g)
    {
      match f
      case Firstname => this.(firstname := value)
      case Lastname => this.(lastname := value)
      case Email => this.(email := value)
      case Contact => this.(contact := value)
      case Gender => this.(gender := value)
      case Dob => this.(dob := value)
      case Password => this.(password := value)
      case Role => this.(role := value)
    }
  }

  const EmptyForm := RegisterForm("", "", "", "", "", "", "", "")

  function RequiredMessage(f: Field): string
  {
    match f
    case Firstname => "First name is required"
    case Lastname => "Last name is required"
    case Email => "Email is required"
    case Contact => "Contact is required"
    case Gender => "Gender is required"
    case Dob => "Date of birth is required"
    case Password => "Password is required"
    case Role => "Role selection is required"
  }

  /** The fields in the order `validate` checks them. */
  const CheckOrder: seq<Field> := [Firstname, Lastname, Email, Contact, Gender, Dob, Password, Role]

  /** The error object after the first `n` checks of `validate`. */
  function ErrorsAfter(form: RegisterForm, n: nat): map<Field, string>
    requires n <= |CheckOrder|
  {
    if n == 0 then map[]
    else
      var before, f := ErrorsAfter(form, n - 1), CheckOrder[n - 1];
      if form.Get(f) == "" then before[f := RequiredMessage(f)] else before
  }

  /** After `n` checks the error object has an entry, with the field's
      message, for exactly the empty fields among the first `n` checked. */
  lemma {:induction false} ErrorsAfterMeaning(form: RegisterForm, n: nat)
    requires n <= |CheckOrder|
    ensures forall f :: f in ErrorsAfter(form, n) <==> f in CheckOrder[..n] && form.Get(f) == ""
    ensures forall f :: f in ErrorsAfter(form, n) ==> ErrorsAfter(form, n)[f] == RequiredMessage(f)
  {
    if n > 0 {
      ErrorsAfterMeaning(form, n - 1);
      assert CheckOrder[..n] == CheckOrder[..n - 1] + [CheckOrder[n - 1]];
    }
  }

  /** `validate` checks every field. */
  lemma EveryFieldChecked()
    ensures forall f :: f in CheckOrder
  {
    forall f ensures f in CheckOrder {
      match f
      case Firstname => assert CheckOrder[0] == f;
      case Lastname => assert CheckOrder[1] == f;
      case Email => assert CheckOrder[2] == f;
      case Contact => assert CheckOrder[3] == f;
      case Gender => assert CheckOrder[4] == f;
      case Dob => assert CheckOrder[5] == f;
      case Password => assert CheckOrder[6] == f;
      case Role => assert CheckOrder[7] == f;
    }
  }

  /** The error object `validate` returns: one entry for each empty field,
      with that field's message, and none for a filled one. */
  function Errors(form: RegisterForm): (errors: map<Field, string>)
    ensures forall f :: f in errors <==> form.Get(f) == ""
    ensures forall f :: f in errors ==> errors[f] == RequiredMessage(f)
  {
    EveryFieldChecked();
    ErrorsAfterMeaning(form, |CheckOrder|);
    assert CheckOrder[..|CheckOrder|] == CheckOrder;
    ErrorsAfter(form, |CheckOrder|)
  }

  /** `validate`: eight conditional assignments into the error object. */
  method Validate(form: RegisterForm) returns (errors: map<Field, string>)
    ensures errors == Errors(form)
  {
    errors := map[];
    if form.firstname == "" { errors := errors[Firstname := RequiredMessage(Firstname)]; }
    assert errors == ErrorsAfter(form, 1);
    if form.lastname == "" { errors := errors[Lastname := RequiredMessage(Lastname)]; }
    assert errors == ErrorsAfter(form, 2);
    if form.email == "" { errors := errors[Email := RequiredMessage(Email)]; }
    assert errors == ErrorsAfter(form, 3);
    if form.contact == "" { errors := errors[Contact := RequiredMessage(Contact)]; }
    assert errors == ErrorsAfter(form, 4);
    if form.gender == "" { errors := errors[Gender := RequiredMessage(Gender)]; }
    assert errors == ErrorsAfter(form, 5);
    if form.dob == "" { errors := errors[Dob := RequiredMessage(Dob)]; }
    assert errors == ErrorsAfter(form, 6);
    if form.password == "" { errors := errors[Password := RequiredMessage(Password)]; }
    assert errors == ErrorsAfter(form, 7);
    if form.role == "" { errors := errors[Role := RequiredMessage(Role)]; }
    assert errors == ErrorsAfter(form, 8);
  }

  /** Editing one field changes only that field's error: filling it in
      removes its entry, clearing it adds the entry back. */
  lemma ChangeAffectsOnlyItsError(form: RegisterForm, f: Field, value: string)
    ensures Errors(form.Set(f, value)) ==
              if value == "" then Errors(form)[f := RequiredMessage(f)] else Errors(form) - {f}
  {
    var after := Errors(form.Set(f, value));
    var expected := if value == "" then Errors(form)[f := RequiredMessage(f)] else Errors(form) - {f};
    assert after.Keys == expected.Keys;
  }

  const SuccessMessage := "Registration successful"

  class Registration {
    var formData: RegisterForm
    var loading: bool
    var errors: map<Field, string>

    constructor ()
      ensures formData == EmptyForm && !loading && errors == map[]
    {
      formData := EmptyForm;
      loading := false;
      errors := map[];
    }

    /** `handleChange` for the input named `f`. */
    method HandleChange(f: Field, value: string)
      modifies this
      ensures formData == old(formData).Set(f, value)
      ensures loading == old(loading) && errors == old(errors)
    {
      formData := formData.Set(f, value);
    }

    /** `handleSubmit`, with `reply` the outcome of the POST to `/register`.
        With a missing field nothing is sent and the errors are stored.
        Otherwise the form is sent; the expected message resets the form and
        navigates to the login page. The stored errors are left as they were
        when the form is sent. If the request fails without a response, the
        `catch` block itself fails on `error.response.data` and no toast is
        raised. */
    method HandleSubmit(reply: Reply) returns (request: Option<RegisterForm>, toast: Option<Toast>, navigateToLogin: bool)
      modifies this
      ensures request.None? <==> Errors(old(formData)) != map[]
      ensures request.None? ==>
                && errors == Errors(old(formData)) && formData == old(formData)
                && loading == old(loading) && toast.None? && !navigateToLogin
      ensures request.Some? ==> request.value == old(formData) && !loading && errors == old(errors)
      ensures request.Some? ==> (navigateToLogin <==> Resolves(reply) && reply.message == SuccessMessage)
      ensures request.Some? && navigateToLogin ==>
                formData == EmptyForm && toast == Some(SuccessToast(SuccessMessage))
      ensures request.Some? && !navigateToLogin ==>
                && formData == old(formData)
                && toast == (if Resolves(reply) then Some(ErrorToast("Something went wrong"))
                             else if reply.Response? then Some(ErrorToast(reply.message))
                             else None)
    {
      var validationErrors := Validate(formData);
      if |validationErrors| > 0 {
        errors := validationErrors;
        return None, None, false;
      }
      loading := true;
      request := Some(formData);
      navigateToLogin := false;
      if Resolves(reply) {
        if reply.message == SuccessMessage {
          toast := Some(SuccessToast(reply.message));
          formData := EmptyForm;
          navigateToLogin := true;
        } else {
          toast := Some(ErrorToast("Something went wrong"));
        }
      } else if reply.Response? {
        toast := Some(ErrorToast(reply.message));
      } else {
        toast := None;
      }
      loading := false;
    }
  }
}

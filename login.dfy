/** The sign-in form (LoginUser.js): two required fields, the Firebase
    sign-in, the token check against the backend, and the mapping of the
    sign-in error codes to the messages shown. */
module Login {
  import opened Common

  datatype Field = Email | Password

  datatype LoginForm = LoginForm(email: string, password: string)
  {
    function Get(f: Field): string
    {
      match f
      case Email => email
      case Password => password
    }

    /** `{ ...formData, [name]: value }` */
    function Set(f: Field, value: string): (r: LoginForm)
      ensures r.Get(f) == value
      ensures forall g :: g != f ==> r.Get(g) == Get(g)
    {
      match f
      case Email => this.(email := value)
      case Password => this.(password := value)
    }
  }

  const EmptyForm := LoginForm("", "")

  function RequiredMessage(f: Field): string
  {
    match f
    case Email => "Email is required"
    case Password => "Password is required"
  }

  /** `validate`: one entry, with its message, for each empty field. */
  method Validate(form: LoginForm) returns (errors: map<Field, string>)
    ensures forall f :: f in errors <==> form.Get(f) == ""
    ensures forall f :: f in errors ==> errors[f] == RequiredMessage(f)
  {
    errors := map[];
    if form.email == "" { errors := errors[Email := RequiredMessage(Email)]; }
    if form.password == "" { errors := errors[Password := RequiredMessage(Password)]; }
  }

  const WrongPassword := "auth/wrong-password"
  const UserNotFound := "auth/user-not-found"
  const InvalidEmail := "auth/invalid-email"
  const InvalidCredential := "auth/invalid-credential"

  const FallbackMessage := "Login failed"

  /** The codes the `catch` block tells apart. */
  predicate KnownCode(code: Option<string>)
  {
    code == Some(WrongPassword) || code == Some(UserNotFound) ||
    code == Some(InvalidEmail) || code == Some(InvalidCredential)
  }

  /** The toast for a failure whose `error.code` is `code` (`None` for an
      error without a code, such as a network failure or an unreadable
      body). Each known code has its own message; everything else gets the
      fallback. */
  function AuthErrorMessage(code: Option<string>): (m: string)
    ensures code == Some(WrongPassword) ==> m == "Incorrect password. Please try again."
    ensures code == Some(UserNotFound) ==> m == "No user found with this email."
    ensures code == Some(InvalidEmail) ==> m == "Invalid email format."
    ensures code == Some(InvalidCredential) ==> m == "Invalid email or password. Please try again."
    ensures m == FallbackMessage <==> !KnownCode(code)
  {
    if code == Some(WrongPassword) then "Incorrect password. Please try again."
    else if code == Some(UserNotFound) then "No user found with this email."
    else if code == Some(InvalidEmail) then "Invalid email format."
    else if code == Some(InvalidCredential) then "Invalid email or password. Please try again."
    else FallbackMessage
  }

  /** Different codes give different messages exactly when one of them is
      known: the message tells a known cause apart from every other. */
  lemma MessagesTellCodesApart(c: Option<string>, d: Option<string>)
    requires AuthErrorMessage(c) == AuthErrorMessage(d)
    ensures c == d || (!KnownCode(c) && !KnownCode(d))
  {
  }

  /** The outcome of `signInWithEmailAndPassword` followed by `getIdToken`. */
  datatype SignIn = SignedIn(idToken: string) | AuthFailed(code: Option<string>)

  /** The outcome of the POST to `/login` and of reading its JSON body:
      an answer with `response.ok`, or a failure of the request or of the
      body's parsing, which is thrown without a code. */
  datatype Backend = Answer(ok: bool) | Unreadable

  class LoginScreen {
    var formData: LoginForm
    var loading: bool
    var errors: map<Field, string>

    constructor ()
      ensures formData == EmptyForm && !loading && errors == map[]
    {
      formData := EmptyForm;
      loading := false;
      errors := map[];
    }

    /** `handleChange` for the input named `f`. */
    method HandleChange(f: Field, value: string)
      modifies this
      ensures formData == old(formData).Set(f, value)
      ensures loading == old(loading) && errors == old(errors)
    {
      formData := formData.Set(f, value);
    }

    /** `handleSubmit`. With a missing field the errors are stored and
        nothing is attempted. Otherwise the credentials are sent to the
        sign-in service (`signIn` is its outcome), the token is posted to
        the backend (`backend` is its outcome), and the home page is opened
        only when the backend answers `ok`. A failure of either step shows
        the message for its code; a backend answer that is not `ok` shows
        nothing. The form and the stored errors are left as they were. */
    method HandleSubmit(signIn: SignIn, backend: Backend)
      returns (credentials: Option<LoginForm>, tokenSent: Option<string>, navigateHome: bool, toast: Option<string>)
      modifies this
      ensures formData == old(formData)
      ensures credentials.None? <==> old(formData).email == "" || old(formData).password == ""
      ensures credentials.None? ==>
                && (forall f :: f in errors <==> old(formData).Get(f) == "")
                && (forall f :: f in errors ==> errors[f] == RequiredMessage(f))
                && loading == old(loading)
                && tokenSent.None? && !navigateHome && toast.None?
      ensures credentials.Some? ==> credentials.value == old(formData) && !loading && errors == old(errors)
      ensures credentials.Some? ==> (tokenSent.Some? <==> signIn.SignedIn?)
      ensures tokenSent.Some? ==> tokenSent.value == signIn.idToken
      ensures navigateHome <==> credentials.Some? && signIn.SignedIn? && backend == Answer(true)
      ensures credentials.Some? && signIn.AuthFailed? ==> toast == Some(AuthErrorMessage(signIn.code))
      ensures credentials.Some? && signIn.SignedIn? ==>
                toast == (if backend.Unreadable? then Some(FallbackMessage) else None)
    {
      var validationErrors := Validate(formData);
      if |validationErrors| > 0 {
        errors := validationErrors;
        return None, None, false, None;
      }
      assert formData.email != "" && formData.password != "" by {
        assert Email !in validationErrors && Password !in validationErrors;
      }
      loading := true;
      credentials := Some(formData);
      navigateHome := false;
      match signIn {
        case AuthFailed(code) =>
          tokenSent := None;
          toast := Some(AuthErrorMessage(code));
        case SignedIn(idToken) =>
          tokenSent := Some(idToken);
          match backend {
            case Answer(ok) =>
              navigateHome := ok;
              toast := None;
            case Unreadable =>
              toast := Some(AuthErrorMessage(None));
          }
      }
      loading := false;
    }
  }
}

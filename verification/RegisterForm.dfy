/**
 The registration page's form state: the controlled fields, the per-field error messages, the
 validation rules run before submitting, the edit handler that clears one field's error, and the
 reset after the server accepts the registration.
 */
module RegisterForm {

  import opened Wrappers
  import opened Text
  import opened EmailFormat

  datatype Field = Username | Email | Password | ConfirmPassword | FullName | Currency

  datatype Form = Form(
    username: string,
    email: string,
    password: string,
    confirmPassword: string,
    fullName: string,
    currency: string)

  /** Field name to message. An entry holding "" is present but falsy, so it shows no error. */
  type Errors = map<Field, string>

  datatype Page = Page(form: Form, errors: Errors)

  const UsernameRequired := "Username is required"
  const EmailRequired := "Email is required"
  const EmailInvalid := "Invalid email format"
  const PasswordRequired := "Password is required"
  const PasswordsDiffer := "Passwords do not match"
  const ConfirmRequired := "Confirm password is required"

  /** The state the page starts in and returns to after a successful registration. */
  const EmptyForm := Form("", "", "", "", "", "USD")
  const InitialPage := Page(EmptyForm, map[])

  /** The field's input shows an error: its entry is present and non-empty. */
  predicate Shown(errors: Errors, field: Field) {
    field in errors && errors[field] != ""
  }

  function Get(f: Form, field: Field): string {
    match field
    case Username => f.username
    case Email => f.email
    case Password => f.password
    case ConfirmPassword => f.confirmPassword
    case FullName => f.fullName
    case Currency => f.currency
  }

  /** `{ ...formData, [name]: value }`. */
  function Set(f: Form, field: Field, value: string): (r: Form)
    ensures Get(r, field) == value
    ensures forall other :: other != field ==> Get(r, other) == Get(f, other)
  {
    match field
    case Username => f.(username := value)
    case Email => f.(email := value)
    case Password => f.(password := value)
    case ConfirmPassword => f.(confirmPassword := value)
    case FullName => f.(fullName := value)
    case Currency => f.(currency := value)
  }

  /** Editing one input stores the value and blanks that field's error; nothing else changes. */
  function HandleChange(p: Page, name: Field, value: string): (r: Page)
    ensures Get(r.form, name) == value
    ensures forall other :: other != name ==> Get(r.form, other) == Get(p.form, other)
    ensures !Shown(r.errors, name) && name in r.errors
    ensures r.errors.Keys == p.errors.Keys + {name}
    ensures forall other :: other != name && other in p.errors ==> r.errors[other] == p.errors[other]
  {
    Page(Set(p.form, name, value), p.errors[name := ""])
  }

  /** The error map built from the outcome of each check, writing in the source's order; a later
      write to the same key overrides an earlier one, which is how a blank confirmation overrides
      the mismatch message. */
  function Collect(noUser: bool, noEmail: bool, badEmail: bool, noPassword: bool, differ: bool, noConfirm: bool)
    : (e: Errors)
    ensures Username in e <==> noUser
    ensures Email in e <==> noEmail || badEmail
    ensures Password in e <==> noPassword
    ensures ConfirmPassword in e <==> noConfirm || differ
    ensures Username in e ==> e[Username] == UsernameRequired
    ensures Email in e ==> e[Email] == (if noEmail then EmailRequired else EmailInvalid)
    ensures Password in e ==> e[Password] == PasswordRequired
    ensures ConfirmPassword in e ==> e[ConfirmPassword] == (if noConfirm then ConfirmRequired else PasswordsDiffer)
    ensures e.Keys <= {Username, Email, Password, ConfirmPassword}
    ensures forall field :: field in e ==> Shown(e, field)
  {
    var e0: Errors := map[];
    var e1 := if noUser then e0[Username := UsernameRequired] else e0;
    var e2 := if noEmail then e1[Email := EmailRequired] else if badEmail then e1[Email := EmailInvalid] else e1;
    var e3 := if noPassword then e2[Password := PasswordRequired] else e2;
    var e4 := if differ then e3[ConfirmPassword := PasswordsDiffer] else e3;
    if noConfirm then e4[ConfirmPassword := ConfirmRequired] else e4
  }

  /** No check failing is the only way to an empty map. */
  lemma CollectEmptyIff(noUser: bool, noEmail: bool, badEmail: bool, noPassword: bool, differ: bool, noConfirm: bool)
    ensures Collect(noUser, noEmail, badEmail, noPassword, differ, noConfirm) == map[] <==>
      !noUser && !noEmail && !badEmail && !noPassword && !differ && !noConfirm
  {
    var e := Collect(noUser, noEmail, badEmail, noPassword, differ, noConfirm);
    if !noUser && !noEmail && !badEmail && !noPassword && !differ && !noConfirm {
      assert e.Keys == {};
    }
  }

  /** `validateForm`: the required checks use `trim`, the address check uses the regular
      expression on the raw value, and the match check compares the raw strings. */
  function Validate(f: Form): (e: Errors)
    ensures Username in e <==> IsBlank(f.username)
    ensures Email in e <==> IsBlank(f.email) || !WellShapedEmail(f.email)
    ensures Password in e <==> IsBlank(f.password)
    ensures ConfirmPassword in e <==> IsBlank(f.confirmPassword) || f.password != f.confirmPassword
    ensures Username in e ==> e[Username] == UsernameRequired
    ensures Email in e ==> e[Email] == (if IsBlank(f.email) then EmailRequired else EmailInvalid)
    ensures Password in e ==> e[Password] == PasswordRequired
    ensures ConfirmPassword in e ==>
      e[ConfirmPassword] == (if IsBlank(f.confirmPassword) then ConfirmRequired else PasswordsDiffer)
    ensures e.Keys <= {Username, Email, Password, ConfirmPassword}
  {
    TrimEmptyIffBlank(f.username);
    TrimEmptyIffBlank(f.email);
    TrimEmptyIffBlank(f.password);
    TrimEmptyIffBlank(f.confirmPassword);
    EmailPatternIff(f.email);
    Collect(
      Trim(f.username) == "",
      Trim(f.email) == "",
      !MatchesEmailPattern(f.email),
      Trim(f.password) == "",
      f.password != f.confirmPassword,
      Trim(f.confirmPassword) == "")
  }

  /** The form passes validation exactly when every required field is filled, the address is well
      shaped and the confirmation equals the password character for character. */
  lemma ValidationPassesIff(f: Form)
    ensures Validate(f) == map[] <==>
      && !IsBlank(f.username)
      && WellShapedEmail(f.email)
      && !IsBlank(f.password)
      && f.confirmPassword == f.password
  {
    TrimEmptyIffBlank(f.username);
    TrimEmptyIffBlank(f.email);
    TrimEmptyIffBlank(f.password);
    TrimEmptyIffBlank(f.confirmPassword);
    EmailPatternIff(f.email);
    WellShapedIsNotBlank(f.email);
    CollectEmptyIff(
      Trim(f.username) == "",
      Trim(f.email) == "",
      !MatchesEmailPattern(f.email),
      Trim(f.password) == "",
      f.password != f.confirmPassword,
      Trim(f.confirmPassword) == "");
  }

  /** The body posted to the server's `/register` route. */
  datatype Payload = Payload(username: string, email: string, password: string, fullName: string, currency: string)

  datatype Submitted = Submitted(page: Page, request: Option<Payload>)

  /** Submitting either stores the validation errors and posts nothing, or leaves the page as it is
      and posts the raw (untrimmed) field values. */
  function Submit(p: Page): (r: Submitted)
    ensures r.request.Some? <==>
      !IsBlank(p.form.username) && WellShapedEmail(p.form.email) && !IsBlank(p.form.password)
      && p.form.confirmPassword == p.form.password
    ensures r.request.None? ==> r.page == Page(p.form, Validate(p.form)) && r.page.errors != map[]
    ensures r.request.Some? ==> r.page == p
    ensures r.request.Some? ==>
      var q := r.request.value;
      q.username == p.form.username && q.email == p.form.email && q.password == p.form.password
      && q.fullName == p.form.fullName && q.currency == p.form.currency
  {
    ValidationPassesIff(p.form);
    var errors := Validate(p.form);
    if errors != map[] then
      Submitted(p.(errors := errors), None)
    else
      var f := p.form;
      Submitted(p, Some(Payload(f.username, f.email, f.password, f.fullName, f.currency)))
  }

  /** The server's answer to a posted registration: success resets the form, failure keeps it. */
  function Finish(p: Page, success: bool): (r: Page)
    ensures success ==> r.form == EmptyForm && r.errors == p.errors
    ensures success ==> forall field :: field != Currency ==> Get(r.form, field) == ""
    ensures !success ==> r == p
  {
    if success then p.(form := EmptyForm) else p
  }

  /** After a submit rejected for a mismatch, editing the password to equal the confirmation
      leaves the "Passwords do not match" message on the confirmation field, since only the edited
      field's error is cleared, although validation no longer reports it; if the rest of the form is
      valid the registration is posted with that message still displayed. */
  lemma MismatchMessageOutlivesFix(p: Page)
    requires p.errors == Validate(p.form)
    requires !IsBlank(p.form.confirmPassword) && p.form.password != p.form.confirmPassword
    ensures
      var q := HandleChange(p, Password, p.form.confirmPassword);
      && Shown(q.errors, ConfirmPassword) && q.errors[ConfirmPassword] == PasswordsDiffer
      && ConfirmPassword !in Validate(q.form)
      && (Submit(q).request.Some? ==> Shown(Submit(q).page.errors, ConfirmPassword))
  {
    var q := HandleChange(p, Password, p.form.confirmPassword);
    assert q.form.password == q.form.confirmPassword == p.form.confirmPassword;
  }
}

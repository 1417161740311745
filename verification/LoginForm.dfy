/**
 The login page's form state: two controlled fields, their error messages, the required-field
 validation, the edit handler and the reset after a successful login.
 */
module LoginForm {

  import opened Wrappers
  import opened Text

  datatype Field = Username | Password

  datatype Form = Form(username: string, password: string)

  /** Field name to message; an entry holding "" is present but shows no error. */
  type Errors = map<Field, string>

  datatype Page = Page(form: Form, errors: Errors)

  const UsernameRequired := "Username is required"
  const PasswordRequired := "Password is required"

  const EmptyForm := Form("", "")
  const InitialPage := Page(EmptyForm, map[])

  predicate Shown(errors: Errors, field: Field) {
    field in errors && errors[field] != ""
  }

  function Get(f: Form, field: Field): string {
    match field
    case Username => f.username
    case Password => f.password
  }

  /** Editing one input stores the value and blanks that field's error; nothing else changes. */
  function HandleChange(p: Page, name: Field, value: string): (r: Page)
    ensures Get(r.form, name) == value
    ensures forall other :: other != name ==> Get(r.form, other) == Get(p.form, other)
    ensures !Shown(r.errors, name) && name in r.errors
    ensures r.errors.Keys == p.errors.Keys + {name}
    ensures forall other :: other != name && other in p.errors ==> r.errors[other] == p.errors[other]
  {
    var form := match name
      case Username => p.form.(username := value)
      case Password => p.form.(password := value);
    Page(form, p.errors[name := ""])
  }

  /** The error map built from the outcome of each check, in the source's order. */
  function Collect(noUser: bool, noPassword: bool): (e: Errors)
    ensures Username in e <==> noUser
    ensures Password in e <==> noPassword
    ensures Username in e ==> e[Username] == UsernameRequired
    ensures Password in e ==> e[Password] == PasswordRequired
    ensures e == map[] <==> !noUser && !noPassword
  {
    var e0: Errors := map[];
    var e1 := if noUser then e0[Username := UsernameRequired] else e0;
    var e := if noPassword then e1[Password := PasswordRequired] else e1;
    assert !noUser && !noPassword ==> e.Keys == {};
    e
  }

  /** `validateForm`: each field is required, checked with `trim`. */
  function Validate(f: Form): (e: Errors)
    ensures Username in e <==> IsBlank(f.username)
    ensures Password in e <==> IsBlank(f.password)
    ensures Username in e ==> e[Username] == UsernameRequired
    ensures Password in e ==> e[Password] == PasswordRequired
  {
    TrimEmptyIffBlank(f.username);
    TrimEmptyIffBlank(f.password);
    Collect(Trim(f.username) == "", Trim(f.password) == "")
  }

  /** The error map is empty exactly when both fields hold a non-whitespace character. */
  lemma ValidationPassesIff(f: Form)
    ensures Validate(f) == map[] <==> !IsBlank(f.username) && !IsBlank(f.password)
  {
    TrimEmptyIffBlank(f.username);
    TrimEmptyIffBlank(f.password);
    var e := Collect(Trim(f.username) == "", Trim(f.password) == "");
    assert Validate(f) == e;
  }

  /** The body posted to the server's `/login` route. */
  datatype Payload = Payload(username: string, password: string)

  datatype Submitted = Submitted(page: Page, request: Option<Payload>)

  /** Submitting either stores the errors and posts nothing, or posts the raw field values. */
  function Submit(p: Page): (r: Submitted)
    ensures r.request.Some? <==> !IsBlank(p.form.username) && !IsBlank(p.form.password)
    ensures r.request.None? ==> r.page == Page(p.form, Validate(p.form))
    ensures r.request.None? ==> Shown(r.page.errors, Username) || Shown(r.page.errors, Password)
    ensures r.request.Some? ==> r.page == p && r.request.value == Payload(p.form.username, p.form.password)
  {
    ValidationPassesIff(p.form);
    var errors := Validate(p.form);
    if errors != map[] then
      Submitted(p.(errors := errors), None)
    else
      Submitted(p, Some(Payload(p.form.username, p.form.password)))
  }

  /** The server's answer to a posted login: success empties both fields, failure keeps them. */
  function Finish(p: Page, success: bool): (r: Page)
    ensures success ==> r.form.username == "" && r.form.password == "" && r.errors == p.errors
    ensures !success ==> r == p
  {
    if success then p.(form := EmptyForm) else p
  }
}

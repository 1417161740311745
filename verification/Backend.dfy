/**
 The server's `/register` handler: required-field check on the JSON body, connection check,
 duplicate check on username or email, and the insert with defaults for the optional fields.

 The password hash and its random salt are parameters (`hashpw`, `salt`); the database is the
 sequence of its `users` rows, and whether a connection could be opened is the flag `connected`.
 */
module Backend {

  import opened Wrappers
  import Text
  import EmailFormat
  import RegisterForm

  /** A member of the posted JSON object: missing, explicitly `null`, or a string. */
  datatype JsonField = Absent | Null | Str(s: string)

  /** Python truthiness of a member as read with `data.get`: missing, `null` and "" are falsy. */
  predicate Truthy(f: JsonField) {
    f.Str? && f.s != ""
  }

  /** `data.get(name, default)`: the default only when the member is missing; `null` is `None`,
      stored as SQL `NULL`. */
  function GetOr(f: JsonField, default: Option<string>): (v: Option<string>)
    ensures f.Absent? ==> v == default
    ensures f.Null? ==> v.None?
    ensures f.Str? ==> v == Some(f.s)
  {
    match f
    case Absent => default
    case Null => None
    case Str(s) => Some(s)
  }

  datatype RegisterRequest = RegisterRequest(
    username: JsonField, email: JsonField, password: JsonField, fullName: JsonField, currency: JsonField)

  /** A row of the `users` table. */
  datatype User = User(
    username: string, email: string, passwordHash: string, fullName: Option<string>, currency: Option<string>)

  datatype Response = Response(status: int, message: string)

  datatype Outcome = Outcome(response: Response, users: seq<User>)

  const MissingFields := Response(400, "Missing required fields")
  const NoConnection := Response(500, "Database connection failed")
  const AlreadyExists := Response(400, "Username or email already exists")
  const Registered := Response(201, "Registration successful")

  /** The duplicate query: some row has the username or the email. */
  predicate Taken(users: seq<User>, username: string, email: string) {
    exists k :: 0 <= k < |users| && (users[k].username == username || users[k].email == email)
  }

  /** The row a successful registration inserts. */
  function NewUser(req: RegisterRequest, hashpw: (string, string) -> string, salt: string): User
    requires Truthy(req.username) && Truthy(req.email) && Truthy(req.password)
  {
    User(req.username.s, req.email.s, hashpw(req.password.s, salt),
      GetOr(req.fullName, Some("")), GetOr(req.currency, Some("USD")))
  }

  /** `register`: the checks in source order, and the table grows by one row only on success. */
  function Register(req: RegisterRequest, users: seq<User>, hashpw: (string, string) -> string,
                    salt: string, connected: bool): (r: Outcome)
    ensures r.response == MissingFields <==>
      !Truthy(req.username) || !Truthy(req.email) || !Truthy(req.password)
    ensures r.response == NoConnection <==>
      Truthy(req.username) && Truthy(req.email) && Truthy(req.password) && !connected
    ensures r.response == AlreadyExists <==>
      Truthy(req.username) && Truthy(req.email) && Truthy(req.password) && connected
      && Taken(users, req.username.s, req.email.s)
    ensures r.response == Registered <==>
      Truthy(req.username) && Truthy(req.email) && Truthy(req.password) && connected
      && !Taken(users, req.username.s, req.email.s)
    ensures r.response != Registered ==> r.users == users
    ensures r.response == Registered ==>
      && |r.users| == |users| + 1
      && r.users[..|users|] == users
      && r.users[|users|].username == req.username.s
      && r.users[|users|].email == req.email.s
      && r.users[|users|].passwordHash == hashpw(req.password.s, salt)
      && (req.fullName.Absent? ==> r.users[|users|].fullName == Some(""))
      && (req.fullName.Null? ==> r.users[|users|].fullName.None?)
      && (req.fullName.Str? ==> r.users[|users|].fullName == Some(req.fullName.s))
      && (req.currency.Absent? ==> r.users[|users|].currency == Some("USD"))
      && (req.currency.Null? ==> r.users[|users|].currency.None?)
      && (req.currency.Str? ==> r.users[|users|].currency == Some(req.currency.s))
  {
    if !Truthy(req.username) || !Truthy(req.email) || !Truthy(req.password) then
      Outcome(MissingFields, users)
    else if !connected then
      Outcome(NoConnection, users)
    else if Taken(users, req.username.s, req.email.s) then
      Outcome(AlreadyExists, users)
    else
      Outcome(Registered, users + [NewUser(req, hashpw, salt)])
  }

  /** No two rows share a username, and no two share an email. */
  predicate Unique(users: seq<User>) {
    forall i, j :: 0 <= i < j < |users| ==>
      users[i].username != users[j].username && users[i].email != users[j].email
  }

  /** The duplicate check keeps the table free of repeated usernames and emails. */
  lemma RegisterKeepsUnique(req: RegisterRequest, users: seq<User>, hashpw: (string, string) -> string,
                            salt: string, connected: bool)
    requires Unique(users)
    ensures Unique(Register(req, users, hashpw, salt, connected).users)
  {
    var r := Register(req, users, hashpw, salt, connected);
    if r.response == Registered {
      var n := r.users[|users|];
      forall i, j | 0 <= i < j < |r.users|
        ensures r.users[i].username != r.users[j].username && r.users[i].email != r.users[j].email
      {
        if j == |users| {
          assert r.users[i] == users[i];
          assert !(users[i].username == n.username || users[i].email == n.email);
        } else {
          assert r.users[i] == users[i] && r.users[j] == users[j];
        }
      }
    }
  }

  /** Sending the same registration twice: the second is turned away as a duplicate, and the table
      keeps the single row of the first. */
  lemma RegisterTwiceRejected(req: RegisterRequest, users: seq<User>, hashpw: (string, string) -> string,
                              salt: string, salt': string)
    requires Register(req, users, hashpw, salt, true).response == Registered
    ensures
      var once := Register(req, users, hashpw, salt, true).users;
      var twice := Register(req, once, hashpw, salt', true);
      twice.response == AlreadyExists && twice.users == once
  {
    var once := Register(req, users, hashpw, salt, true).users;
    assert once[|users|].username == req.username.s;
  }

  /** The body the registration page posts: every member present as a string. */
  function RequestOf(p: RegisterForm.Payload): (req: RegisterRequest)
    ensures req.username == Str(p.username) && req.email == Str(p.email) && req.password == Str(p.password)
    ensures req.fullName == Str(p.fullName) && req.currency == Str(p.currency)
  {
    RegisterRequest(Str(p.username), Str(p.email), Str(p.password), Str(p.fullName), Str(p.currency))
  }

  /** Whatever the registration page lets through its own validation never meets the server's
      required-field error; the stored full name and currency are the form's, "" included. */
  lemma FormPayloadPassesRequiredCheck(page: RegisterForm.Page, users: seq<User>,
                                       hashpw: (string, string) -> string, salt: string, connected: bool)
    requires RegisterForm.Submit(page).request.Some?
    ensures
      var p := RegisterForm.Submit(page).request.value;
      var r := Register(RequestOf(p), users, hashpw, salt, connected);
      && r.response != MissingFields
      && (r.response == Registered ==>
            r.users[|users|].fullName == Some(p.fullName) && r.users[|users|].currency == Some(p.currency))
  {
    var p := RegisterForm.Submit(page).request.value;
    EmailFormat.WellShapedIsNotBlank(p.email);
    assert Text.IsBlank("");
    assert !Text.IsBlank(p.username) && !Text.IsBlank(p.email) && !Text.IsBlank(p.password);
    var req := RequestOf(p);
    assert Truthy(req.username) && Truthy(req.email) && Truthy(req.password);
  }
}

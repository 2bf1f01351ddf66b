/**
 * The account service: `create_user` (an ordered chain of checks, then insert and commit, or
 * rollback) and `login` (a lookup by email, then a password-hash check).
 *
 * The calls into other libraries are parameters: password hashing is a `Hasher` whose only
 * known law is `Sound` (a password verifies against its own hash); the email validator is a
 * function that either canonicalises an address or rejects it with a reason; whether the
 * database commit fails for a reason of its own is the boolean `commitOk`.
 */
module Auth {
  import opened Wrappers
  import opened Models
  import opened Session

  /** A JSON object body with string values; `None` is a key set to JSON null, which still counts as a key. */
  type Json = map<string, Option<string>>

  /** The JSON object a response carries: one key and its text, or the raw exception object. */
  datatype Payload = Field(key: string, value: string) | ExceptionObject

  datatype Response = Response(status: int, payload: Payload)

  /** The status Flask sends when a view returns a body without one. */
  const DefaultStatus := 200

  const NotValidJson := Response(400, Field("error", "Not a Valid JSON"))
  const MissingData := Response(400, Field("error", "Missing required data"))
  const UsernameTaken := Response(409, Field("error", "Username is taken"))
  const EmailTaken := Response(409, Field("error", "User with the same email detected"))
  const BadUsernameLength := Response(400, Field("error", "Username must be between 4-20 characters"))
  const WeakPassword := Response(400, Field("error", "Weak Password detected"))
  const CommitFailed := Response(500, ExceptionObject)
  const Created := Response(201, Field("message", "User created successfully"))

  const MissingEmail := Response(400, Field("error", "Missing Email"))
  const MissingPassword := Response(DefaultStatus, Field("error", "Missing Password"))
  const Verified := Response(200, Field("msg", "User verified"))
  const WrongPassword := Response(400, Field("error", "wrong password"))
  const UserNotFound := Response(404, Field("error", "User not found"))

  /** What the email validator answers: the canonical form of a valid address, or why it is not valid. */
  datatype EmailCheck = Canonical(email: string) | NotValid(reason: string)

  /** Password hashing: `hash` makes the stored digest, `check(digest, password)` verifies one. */
  datatype Hasher = Hasher(hash: string -> string, check: (string, string) -> bool)

  /** The one law assumed of the hashing library. */
  ghost predicate Sound(h: Hasher) {
    forall p :: h.check(h.hash(p), p)
  }

  /**
   * `not data` for the parsed body: a JSON `null` body, or an object with no keys at all. `None`
   * also stands for the other falsy bodies `[]`, `""`, `0`, `0.0` and `false`, which the views
   * answer exactly as they answer `null`.
   */
  predicate Falsy(body: Option<Json>) {
    body.None? || |body.value| == 0
  }

  /** `data.get(key)`: `None` for an absent key and for one set to null alike. */
  function Get(data: Json, key: string): Option<string> {
    if key in data then data[key] else None
  }

  /** Python truthiness of an optional string: present and non-empty. */
  predicate Truthy(v: Option<string>) {
    v.Some? && v.value != ""
  }

  // ----- create_user -----

  /** The fields of a request that passed every check, with the email already canonical. */
  datatype Signup = Signup(username: string, password: string, email: string, name: Option<string>, bio: Option<string>)

  /** The checks of `create_user` in their order; the first that fails gives the response. */
  function CheckRequest(users: seq<User>, body: Option<Json>, validate: string -> EmailCheck): (r: Result<Signup, Response>)
    ensures r.Failure? ==> r.error.status in {DefaultStatus, 400, 409}
    ensures r.Success? ==> && body.Some?
                           && r.value.username != "" && FilterFirst(users, UsernameColumn, r.value.username).None?
                           && |r.value.password| >= 8
                           && Get(body.value, "password") == Some(r.value.password)
  {
    if Falsy(body) then Failure(NotValidJson)
    else
      var data := body.value;
      var username, password, email := Get(data, "username"), Get(data, "password"), Get(data, "email");
      if !(Truthy(username) && Truthy(password) && Truthy(email)) then Failure(MissingData)
      else if FilterFirst(users, UsernameColumn, username.value).Some? then Failure(UsernameTaken)
      else if FilterFirst(users, EmailColumn, email.value).Some? then Failure(EmailTaken)
      else
        match validate(email.value)
        case NotValid(reason) => Failure(Response(DefaultStatus, Field("error", reason)))
        case Canonical(canonical) =>
          if |username.value| <= 3 && |username.value| >= 20 then Failure(BadUsernameLength)
          else if |password.value| < 8 then Failure(WeakPassword)
          else Success(Signup(username.value, password.value, canonical, Get(data, "name"), Get(data, "bio")))
  }

  /** The row `create_user` hands to the session: hashed password, no profile picture, id still unset. */
  function NewUser(s: Signup, h: Hasher): User {
    User(0, s.username, h.hash(s.password), s.email, s.name, s.bio, None)
  }

  /** The row as the database stores it, with the id it assigns. */
  function StoredUser(users: seq<User>, s: Signup, h: Hasher): User {
    NewUser(s, h).(id := NextUserId(users))
  }

  datatype Outcome = Outcome(response: Response, users: seq<User>)

  /** The response of `create_user` and the user table after it. */
  function CreateOutcome(schema: Schema, users: seq<User>, body: Option<Json>, validate: string -> EmailCheck,
                         h: Hasher, commitOk: bool): (o: Outcome)
    ensures (o.response == Created) == (o.users != users)
    ensures o.users != users ==> |o.users| == |users| + 1 && o.users[..|users|] == users
    ensures UsersConsistent(schema, users) ==> UsersConsistent(schema, o.users)
  {
    match CheckRequest(users, body, validate)
    case Failure(r) => Outcome(r, users)
    case Success(s) =>
      var row := StoredUser(users, s, h);
      if commitOk && UsersConsistent(schema, users + [row])
      then (assert users + [row] != users by { assert |users + [row]| != |users|; }
            assert (users + [row])[..|users|] == users;
            Outcome(Created, users + [row]))
      else Outcome(CommitFailed, users)
  }

  /** `create_user` as the source runs it: early returns, the email replaced by its canonical form, then add and commit. */
  method CreateUser(store: Store, body: Option<Json>, validate: string -> EmailCheck, h: Hasher, commitOk: bool)
    returns (r: Response)
    requires store.Valid()
    modifies store
    ensures store.Valid()
    ensures var o := CreateOutcome(store.schema, old(store.users), body, validate, h, commitOk);
            r == o.response && store.users == o.users
    ensures store.stories == old(store.stories) && store.ratings == old(store.ratings)
    ensures store.reviews == old(store.reviews)
  {
    if Falsy(body) {
      return NotValidJson;
    }
    var data := body.value;
    var username := Get(data, "username");
    var password := Get(data, "password");
    var email := Get(data, "email");
    var name := Get(data, "name");
    var bio := Get(data, "bio");

    if !(Truthy(username) && Truthy(password) && Truthy(email)) {
      return MissingData;
    }
    if FilterFirst(store.users, UsernameColumn, username.value).Some? {
      return UsernameTaken;
    }
    if FilterFirst(store.users, EmailColumn, email.value).Some? {
      return EmailTaken;
    } else {
      match validate(email.value)
      case NotValid(reason) =>
        return Response(DefaultStatus, Field("error", reason));
      case Canonical(canonical) =>
        email := Some(canonical);
    }
    if |username.value| <= 3 && |username.value| >= 20 {
      return BadUsernameLength;
    }
    if |password.value| < 8 {
      return WeakPassword;
    }

    var hashed := h.hash(password.value);
    // the id stays unset until the database assigns one at commit
    var user := User(0, username.value, hashed, email.value, name, bio, None);
    var committed := store.AddAndCommit(user, commitOk);
    if !committed {
      return CommitFailed;
    }
    return Created;
  }

  // ----- properties of create_user -----

  /** No body, or an empty object, gives 400 "Not a Valid JSON" before anything else is looked at. */
  lemma NoBodyWins(users: seq<User>, body: Option<Json>, validate: string -> EmailCheck)
    requires Falsy(body)
    ensures CheckRequest(users, body, validate) == Failure(NotValidJson)
  {
  }

  /** Any of username, password or email absent or empty gives "Missing required data", whatever else is wrong. */
  lemma MissingFieldWins(users: seq<User>, data: Json, validate: string -> EmailCheck)
    requires |data| > 0
    requires !(Truthy(Get(data, "username")) && Truthy(Get(data, "password")) && Truthy(Get(data, "email")))
    ensures CheckRequest(users, Some(data), validate) == Failure(MissingData)
  {
  }

  /** An object whose fields are all null is not empty: it gets "Missing required data", and at login "Missing Email". */
  lemma NullFieldsAreMissing(users: seq<User>, validate: string -> EmailCheck, h: Hasher)
    ensures CheckRequest(users, Some(map["username" := None, "password" := None, "email" := None]), validate)
              == Failure(MissingData)
    ensures Login(users, Some(map["email" := None, "password" := None]), h) == MissingEmail
  {
  }

  /** A taken username gives 409 before the email is looked at. */
  lemma UsernameTakenWins(users: seq<User>, data: Json, validate: string -> EmailCheck, i: nat)
    requires |data| > 0
    requires Truthy(Get(data, "username")) && Truthy(Get(data, "password")) && Truthy(Get(data, "email"))
    requires i < |users| && users[i].username == Get(data, "username").value
    ensures CheckRequest(users, Some(data), validate) == Failure(UsernameTaken)
  {
  }

  /** The email-taken check compares the raw input with the stored emails, before any canonicalisation. */
  lemma RawEmailTaken(users: seq<User>, data: Json, validate: string -> EmailCheck, i: nat)
    requires |data| > 0
    requires Truthy(Get(data, "username")) && Truthy(Get(data, "password")) && Truthy(Get(data, "email"))
    requires forall j :: 0 <= j < |users| ==> users[j].username != Get(data, "username").value
    requires i < |users| && users[i].email == Get(data, "email").value
    ensures CheckRequest(users, Some(data), validate) == Failure(EmailTaken)
  {
  }

  /** A rejected email gives the validator's reason with the default status 200, and nothing is inserted. */
  lemma InvalidEmailHasDefaultStatus(schema: Schema, users: seq<User>, data: Json, validate: string -> EmailCheck,
                                     h: Hasher, commitOk: bool, reason: string)
    requires |data| > 0
    requires Truthy(Get(data, "username")) && Truthy(Get(data, "password")) && Truthy(Get(data, "email"))
    requires forall j :: 0 <= j < |users| ==> users[j].username != Get(data, "username").value
    requires forall j :: 0 <= j < |users| ==> users[j].email != Get(data, "email").value
    requires validate(Get(data, "email").value) == NotValid(reason)
    ensures CreateOutcome(schema, users, Some(data), validate, h, commitOk)
              == Outcome(Response(200, Field("error", reason)), users)
  {
  }

  /**
   * A request passes every check exactly when the body is a non-empty object, the three
   * required fields are present and non-empty, the username and the raw email are free, the
   * validator accepts the email and the password has at least 8 characters; the length of the
   * username plays no part. The fields passed on carry the canonical email.
   */
  lemma CheckRequestAcceptsIff(users: seq<User>, data: Json, validate: string -> EmailCheck)
    ensures CheckRequest(users, Some(data), validate).Success? <==>
              && |data| > 0
              && Truthy(Get(data, "username")) && Truthy(Get(data, "password")) && Truthy(Get(data, "email"))
              && (forall j :: 0 <= j < |users| ==> users[j].username != Get(data, "username").value)
              && (forall j :: 0 <= j < |users| ==> users[j].email != Get(data, "email").value)
              && validate(Get(data, "email").value).Canonical?
              && |Get(data, "password").value| >= 8
    ensures CheckRequest(users, Some(data), validate).Success? ==>
              CheckRequest(users, Some(data), validate).value
                == Signup(Get(data, "username").value, Get(data, "password").value,
                          validate(Get(data, "email").value).email, Get(data, "name"), Get(data, "bio"))
  {
  }

  /** The username-length check never rejects: no length is both at most 3 and at least 20. */
  lemma UsernameLengthNeverRejects(users: seq<User>, body: Option<Json>, validate: string -> EmailCheck)
    ensures CheckRequest(users, body, validate) != Failure(BadUsernameLength)
  {
  }

  /** Once the earlier checks pass, a password shorter than 8 gives 400 and one of 8 or more passes. */
  lemma PasswordLengthBoundary(users: seq<User>, data: Json, validate: string -> EmailCheck)
    requires |data| > 0
    requires Truthy(Get(data, "username")) && Truthy(Get(data, "password")) && Truthy(Get(data, "email"))
    requires forall j :: 0 <= j < |users| ==> users[j].username != Get(data, "username").value
    requires forall j :: 0 <= j < |users| ==> users[j].email != Get(data, "email").value
    requires validate(Get(data, "email").value).Canonical?
    ensures |Get(data, "password").value| < 8 <==> CheckRequest(users, Some(data), validate) == Failure(WeakPassword)
    ensures |Get(data, "password").value| >= 8 <==> CheckRequest(users, Some(data), validate).Success?
  {
  }

  /**
   * A 201 means exactly one new user row, holding the input username, name and bio, the
   * canonical email and the hash of the password, under an id no earlier row has.
   */
  lemma CreatedRowContents(schema: Schema, users: seq<User>, data: Json, validate: string -> EmailCheck,
                           h: Hasher, commitOk: bool)
    requires CreateOutcome(schema, users, Some(data), validate, h, commitOk).response == Created
    ensures var o := CreateOutcome(schema, users, Some(data), validate, h, commitOk);
            && commitOk
            && |o.users| == |users| + 1 && o.users[..|users|] == users
            && var u := o.users[|users|];
               && Get(data, "username") == Some(u.username)
               && u.password == h.hash(Get(data, "password").value)
               && validate(Get(data, "email").value) == Canonical(u.email)
               && u.name == Get(data, "name") && u.bio == Get(data, "bio")
               && forall j :: 0 <= j < |users| ==> users[j].id != u.id
  {
    CheckRequestAcceptsIff(users, data, validate);
    var s := CheckRequest(users, Some(data), validate).value;
    var row := StoredUser(users, s, h);
    assert (users + [row])[|users|] == row;
  }

  /** When the commit fails the session rolls back: 500 and the table as it was. */
  lemma CommitFailureRollsBack(schema: Schema, users: seq<User>, body: Option<Json>, validate: string -> EmailCheck, h: Hasher)
    requires CheckRequest(users, body, validate).Success?
    ensures CreateOutcome(schema, users, body, validate, h, false) == Outcome(CommitFailed, users)
  {
  }

  /**
   * Because the email-taken check looks at the raw input, an input whose canonical form is
   * already stored passes every check and is then refused by the unique constraint: 500, not 409.
   */
  lemma TakenCanonicalEmailIsServerError(schema: Schema, users: seq<User>, body: Option<Json>,
                                         validate: string -> EmailCheck, h: Hasher, commitOk: bool, i: nat)
    requires CheckRequest(users, body, validate).Success?
    requires i < |users| && users[i].email == CheckRequest(users, body, validate).value.email
    ensures CreateOutcome(schema, users, body, validate, h, commitOk) == Outcome(CommitFailed, users)
  {
    var s := CheckRequest(users, body, validate).value;
    var row := StoredUser(users, s, h);
    var t := users + [row];
    assert t[i] == users[i] && t[|users|] == row;
  }

  /** That situation can arise: a new raw email whose canonical form another user already has. */
  lemma CanonicalCollisionReachable()
    ensures exists users: seq<User>, data: Json, validate: string -> EmailCheck ::
              && CheckRequest(users, Some(data), validate).Success?
              && |users| > 0 && users[0].email == CheckRequest(users, Some(data), validate).value.email
  {
    var ann := User(1, "ann", "h", "ann@example.org", None, None, Some("ann.png"));
    // the validator keeps the local part and lower-cases the domain
    var data := map["username" := Some("bob"), "password" := Some("password1"), "email" := Some("ann@Example.org")];
    var validate := (e: string) => if e == "ann@Example.org" then Canonical("ann@example.org") else Canonical(e);
    assert "ann" != "bob" by { assert "ann"[0] != "bob"[0]; }
    assert "ann@example.org" != "ann@Example.org" by { assert "ann@example.org"[4] != "ann@Example.org"[4]; }
    assert Get(data, "username") == Some("bob");
    assert Get(data, "email") == Some("ann@Example.org");
    assert Get(data, "password") == Some("password1");
    CheckRequestAcceptsIff([ann], data, validate);
    assert CheckRequest([ann], Some(data), validate).Success?;
  }

  /** After a 201, a request with the same username gets 409 "Username is taken". */
  lemma SecondSignupSameUsername(schema: Schema, users: seq<User>, data: Json, validate: string -> EmailCheck,
                                 h: Hasher, commitOk: bool, again: Json, validate': string -> EmailCheck)
    requires CreateOutcome(schema, users, Some(data), validate, h, commitOk).response == Created
    requires |again| > 0
    requires Truthy(Get(again, "username")) && Truthy(Get(again, "password")) && Truthy(Get(again, "email"))
    requires Get(again, "username") == Get(data, "username")
    ensures CheckRequest(CreateOutcome(schema, users, Some(data), validate, h, commitOk).users, Some(again), validate')
              == Failure(UsernameTaken)
  {
    CreatedRowContents(schema, users, data, validate, h, commitOk);
    var o := CreateOutcome(schema, users, Some(data), validate, h, commitOk);
    UsernameTakenWins(o.users, again, validate', |users|);
  }

  // ----- login -----

  /** Some stored user has this email and the password verifies against that user's hash. */
  ghost predicate Registered(users: seq<User>, email: string, password: string, check: (string, string) -> bool) {
    exists i :: 0 <= i < |users| && users[i].email == email && check(users[i].password, password)
  }

  /** `login`: read-only; the user is looked up by email and the password checked against the stored hash. */
  function Login(users: seq<User>, body: Option<Json>, h: Hasher): (r: Response)
    ensures r in {NotValidJson, MissingEmail, MissingPassword, Verified, WrongPassword, UserNotFound}
    ensures r == Verified ==>
              && body.Some? && Truthy(Get(body.value, "email")) && Truthy(Get(body.value, "password"))
              && Registered(users, Get(body.value, "email").value, Get(body.value, "password").value, h.check)
  {
    if Falsy(body) then NotValidJson
    else
      var email, password := Get(body.value, "email"), Get(body.value, "password");
      if !Truthy(email) then MissingEmail
      else if !Truthy(password) then MissingPassword
      else
        match FilterFirst(users, EmailColumn, email.value)
        case Some(i) => if h.check(users[i].password, password.value) then Verified else WrongPassword
        case None => UserNotFound
  }

  /** The three responses `login` gives before it looks at the store. */
  lemma LoginInputErrors(users: seq<User>, body: Option<Json>, h: Hasher)
    ensures Falsy(body) ==> Login(users, body, h) == NotValidJson
    ensures !Falsy(body) && !Truthy(Get(body.value, "email")) ==> Login(users, body, h) == MissingEmail
    ensures !Falsy(body) && Truthy(Get(body.value, "email")) && !Truthy(Get(body.value, "password")) ==>
              Login(users, body, h) == MissingPassword && Login(users, body, h).status == DefaultStatus
  {
  }

  /** With both credentials given, 404 exactly when no stored user has the email. */
  lemma LoginNotFoundIff(users: seq<User>, data: Json, h: Hasher, email: string, password: string)
    requires Get(data, "email") == Some(email) && Get(data, "password") == Some(password)
    requires email != "" && password != ""
    ensures Login(users, Some(data), h) == UserNotFound <==> forall j :: 0 <= j < |users| ==> users[j].email != email
  {
  }

  /** On a store with unique emails, login verifies exactly the registered credentials, and otherwise says why. */
  lemma LoginVerifiedIff(users: seq<User>, data: Json, h: Hasher, email: string, password: string)
    requires UniqueEmails(users)
    requires Get(data, "email") == Some(email) && Get(data, "password") == Some(password)
    requires email != "" && password != ""
    ensures Login(users, Some(data), h) == Verified <==> Registered(users, email, password, h.check)
    ensures Login(users, Some(data), h) == WrongPassword <==>
              (exists j :: 0 <= j < |users| && users[j].email == email) && !Registered(users, email, password, h.check)
  {
    assert |data| > 0 by { assert "email" in data; }
  }

  /**
   * A user created with password p logs in with the canonical email and p. The canonical email
   * must not be empty: a real email validator never returns an empty address, but the validator
   * here is any function, and with an empty email `login` would answer "Missing Email".
   */
  lemma CreatedUserCanLogIn(schema: Schema, users: seq<User>, data: Json, validate: string -> EmailCheck,
                            h: Hasher, commitOk: bool)
    requires Sound(h)
    requires CreateOutcome(schema, users, Some(data), validate, h, commitOk).response == Created
    requires CheckRequest(users, Some(data), validate).value.email != ""
    ensures var s := CheckRequest(users, Some(data), validate).value;
            Login(CreateOutcome(schema, users, Some(data), validate, h, commitOk).users,
                  Some(map["email" := Some(s.email), "password" := Some(s.password)]), h) == Verified
  {
    var s := CheckRequest(users, Some(data), validate).value;
    var o := CreateOutcome(schema, users, Some(data), validate, h, commitOk);
    var row := StoredUser(users, s, h);
    assert o.users == users + [row];
    assert o.users[|users|] == row;
    var creds := map["email" := Some(s.email), "password" := Some(s.password)];
    assert Get(creds, "email") == Some(s.email) && Get(creds, "password") == Some(s.password);
    assert h.check(row.password, s.password);
    LoginVerifiedIff(o.users, creds, h, s.email, s.password);
  }

  // ----- the profile picture that is never set -----

  /** As written, under the declared table, `create_user` never creates an account and never changes the table. */
  lemma DeclaredSchemaNeverCreates(users: seq<User>, body: Option<Json>, validate: string -> EmailCheck,
                                   h: Hasher, commitOk: bool)
    ensures var o := CreateOutcome(Declared, users, body, validate, h, commitOk);
            o.response != Created && o.users == users
  {
    match CheckRequest(users, body, validate)
    case Failure(_) =>
    case Success(s) =>
      DeclaredRejectsMissingPicture(users, StoredUser(users, s, h));
  }

  /**
   * With `profile_picture` nullable, a request that passes every check, whose canonical email
   * is free, and whose commit does not fail creates the account.
   */
  lemma NullablePictureCreates(users: seq<User>, body: Option<Json>, validate: string -> EmailCheck, h: Hasher)
    requires UsersConsistent(PictureNullable, users)
    requires CheckRequest(users, body, validate).Success?
    requires forall j :: 0 <= j < |users| ==> users[j].email != CheckRequest(users, body, validate).value.email
    ensures CreateOutcome(PictureNullable, users, body, validate, h, true).response == Created
  {
    var s := CheckRequest(users, body, validate).value;
    var row := StoredUser(users, s, h);
    AdmissibleIffConsistent(PictureNullable, users, row);
  }
}

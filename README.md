# Narrative Nexus accounts and entity store, in Dafny

This project models the backend core of the Narrative Nexus storytelling platform:

- the four tables of its database (User, Story, Rating, Review) and the constraints the
  schema declares on them: primary keys, unique username/email/profile picture, NOT NULL
  columns and foreign keys;
- the string renderings of a User and a Story;
- the account service: `create_user` and `login`.

Files:

- `wrappers.dfy`: `Option` and `Result`.
- `models.dfy`, module `Models`:
  - the row datatypes; a nullable column is an `Option`;
  - the store invariant `Consistent`;
  - the lookup `filter_by(...).first()` as `FilterFirst`;
  - the id the database assigns to a new row (`NextUserId`);
  - the renderings.
- `session.dfy`, module `Session`: the class `Store`, the shared database session.
  - Its fields are the four tables.
  - `Valid()` is the store invariant.
  - `AddAndCommit` is `add` + `commit`, or `rollback` when the commit raises.
- `auth.dfy`, module `Auth`:
  - `CheckRequest`: the ordered validation chain of `create_user`.
  - `CreateOutcome`: the response and the new user table.
  - `CreateUser`: the imperative view, a method on the store proved equal to `CreateOutcome`.
  - `Login`: a function over the user table.

The calls into other libraries are parameters:

- Password hashing is a `Hasher` holding `hash` and `check`. The only law assumed of it is
  `Sound`: `check(hash(p), p)` for every `p`.
- The email validator is a function that returns either the canonical address or a rejection
  reason.
- A commit that fails for reasons of the database's own is the boolean `commitOk`.

A commit also fails when the new row breaks a column constraint, as the database's integrity
check would refuse it. The `NOT NULL` on `profile_picture` is a field of the store's `Schema`.
`Declared` is the table as `models.py` declares it. `PictureNullable` is the relaxed table
(see Findings).

Fidelity points kept from the code:

- The username-length check `len <= 3 and len >= 20` is kept and never rejects.
- A rejected email and a missing login password both get Flask's default status 200.
- The duplicate-email lookup uses the raw email. The canonical form is what gets stored, so a
  raw email whose canonical form is taken passes the checks and then fails at commit with 500.
- When the commit fails, the view tries to return the exception object itself
  (`ExceptionObject`); the status is 500 either way.
- A wrong login password gets 400; an unknown login email gets 404.

## Model

| member | source | states |
|---|---|---|
| `Models.UsersConsistent` | src/models.py:27-34 | the user-table constraints: unique id, username, email and picture, and the picture NOT NULL under the declared table; on such a table no two rows share a username or an email |
| `Models.Consistent` | src/models.py:27-125 | every constraint the schema declares on the four tables: the user-table constraints, unique ids of stories, ratings and reviews, and the declared foreign keys; on such a store every Story's author and every Rating's and Review's story and user exist |
| `Models.Admissible` | src/models.py:27-34 | the per-row integrity test the database runs on a new user; a row that passes has a username and an email that `filter_by(...).first()` finds nowhere, and a picture where the schema demands one |
| `Models.FilterFirst` | src/views/auth.py:34-37 | `filter_by(col=v).first()`: the position of the first row whose column equals `v`; none exactly when no row matches |
| `Models.NextUserId` | src/models.py:27 | the id the database assigns to a new user is larger than every stored id, and is one more than the largest (1 for an empty table) |
| `Models.AdmissibleIffConsistent` | src/models.py:27-34 | on a consistent user table, appending a row keeps every constraint exactly when its id, username and email are new, its picture is present if the schema demands one, and its picture is not already used |
| `Models.DeclaredRejectsMissingPicture` | src/models.py:34 | under the declared table, a user without a profile picture is never accepted |
| `Models.AddingUserKeepsForeignKeys` | src/models.py:64-123 | adding an admissible user keeps the store consistent: every Story author and every Rating/Review story and user still resolves |
| `Models.RatingPairNotUnique` | src/models.py:92-98 | a consistent store can hold two ratings by the same user of the same story |
| `Models.UserStr` | src/models.py:36-40 | `str` and `repr` of a User are `<User(username='u')>`; the username reads back out of the rendering |
| `Models.UserStrInjective` | src/models.py:28-37 | two users render alike exactly when their usernames agree |
| `Models.StoryStr` | src/models.py:73-74 | a Story's `str` is its title, the same text its `repr` wraps |
| `Models.StoryRepr` | src/models.py:76-77 | a Story's `repr` is `<Story title>`; the title reads back out of it |
| `Session.Store.constructor` | src/models.py:10 | a new session holds four empty tables and is consistent |
| `Session.Store.AddAndCommit` | src/views/auth.py:53-60 | the row is kept under the next id exactly when the commit does not fail and the table with it satisfies every constraint; otherwise the table is rolled back unchanged; the other tables never change; the store stays consistent |
| `Auth.CheckRequest` | src/views/auth.py:19-50 | every failing check answers 200, 400 or 409; a request that passes has a free non-empty username and a password of at least 8 characters taken from the body |
| `Auth.CreateOutcome` | src/views/auth.py:19-63 | the table changes exactly on 201, and then grows by exactly one row appended at the end; a consistent table stays consistent |
| `Auth.CreateUser` | src/views/auth.py:15-63 | the method's response and new user table are those of `CreateOutcome`; the other tables are unchanged and the store stays consistent |
| `Auth.NoBodyWins` | src/views/auth.py:19-21 | a JSON `null` body (or another falsy non-object body) or an empty object gives 400 "Not a Valid JSON" before anything else is looked at |
| `Auth.MissingFieldWins` | src/views/auth.py:31-32 | an absent or empty username, password or email gives 400 "Missing required data", whatever else is wrong |
| `Auth.NullFieldsAreMissing` | src/views/auth.py:20-32 | an object whose fields are all null is not an empty body: `create_user` answers "Missing required data" and `login` "Missing Email" |
| `Auth.UsernameTakenWins` | src/views/auth.py:34-35 | a taken username gives 409 before the email is looked at |
| `Auth.RawEmailTaken` | src/views/auth.py:37-38 | a free username with a stored raw email gives 409, whatever the validator would say |
| `Auth.InvalidEmailHasDefaultStatus` | src/views/auth.py:40-44 | a rejected email gives the validator's reason with status 200 and inserts nothing |
| `Auth.CheckRequestAcceptsIff` | src/views/auth.py:19-50 | a request passes every check exactly when the body is non-empty, the three fields are given, username and raw email are free, the email validates and the password has at least 8 characters (the username's length plays no part); the passed fields carry the canonical email |
| `Auth.UsernameLengthNeverRejects` | src/views/auth.py:46-47 | no request ever gets the username-length error |
| `Auth.PasswordLengthBoundary` | src/views/auth.py:49-50 | once the earlier checks pass, a password shorter than 8 gives 400 "Weak Password detected" and one of length 8 or more passes |
| `Auth.CreatedRowContents` | src/views/auth.py:53-63 | a 201 means the commit succeeded and exactly one row was appended, with the input username, name and bio, the canonical email, the hash of the password and a fresh id |
| `Auth.CommitFailureRollsBack` | src/views/auth.py:58-60 | a failed commit gives 500 and leaves the table as it was |
| `Auth.TakenCanonicalEmailIsServerError` | src/views/auth.py:37-60 | a request whose canonical email is already stored passes the checks and gets 500 with the table unchanged, not 409 |
| `Auth.CanonicalCollisionReachable` | src/views/auth.py:37-42 | a raw email can be new while its canonical form is taken |
| `Auth.SecondSignupSameUsername` | src/views/auth.py:34-35 | after a 201, a second request with the same username gets 409 "Username is taken" |
| `Auth.Login` | src/views/auth.py:66-89 | the answer is one of six responses, and "User verified" only for a present email and password with a stored user of that email whose hash verifies the password |
| `Auth.LoginInputErrors` | src/views/auth.py:67-78 | no body gives 400, a missing email gives 400, and a missing password gives "Missing Password" with status 200 |
| `Auth.LoginNotFoundIff` | src/views/auth.py:80-89 | with both credentials given, 404 exactly when no stored user has the email |
| `Auth.LoginVerifiedIff` | src/views/auth.py:80-87 | on a store with unique emails, "User verified" exactly when the stored hash of that email's user verifies the password, and "wrong password" exactly when the user exists and it does not |
| `Auth.CreatedUserCanLogIn` | src/views/auth.py:53-85 | a user created with password p logs in with the canonical email and p |
| `Auth.DeclaredSchemaNeverCreates` | src/views/auth.py:53-60 | under the declared table, `create_user` never answers 201 and never changes the table |
| `Auth.NullablePictureCreates` | src/views/auth.py:53-63 | with `profile_picture` nullable, a request that passes the checks, whose canonical email is free and whose commit does not fail, gets 201 |

## Left out

- Application start-up, configuration and routing (`src/app.py`) and the page scripts
  (`src/static/js/base.js`): plumbing and user interface, no account logic.
- The internals of password hashing and of email validation are not modelled. Both are foreign
  calls (the validator also makes DNS lookups); they are the parameters `Hasher` and the
  validator function.
- Hasher: the library salts each hash at random, so one password can hash to different
  digests. The model fixes one `hash` function per request, and assumes only `Sound`.
- JSON parsing and serialisation are not modelled:
  - a body is a JSON object with string or null values, or the JSON `null` body (`None`);
    non-string values are out of scope;
  - a falsy body that is not an object (`[]`, `""`, `0`, `0.0`, `false`) fails the `not data`
    test exactly as `null` does, so `None` stands for it too: 400 "Not a Valid JSON";
  - a truthy body that is not an object (`[1]`, `"x"`, `1`, `true`) is out of scope: it passes
    the `not data` test and then `data.get` raises, which Flask answers with 500;
  - a request without a JSON content type is out of scope: `request.get_json()` raises before
    the `not data` test;
  - a key set to JSON null counts as a key of the object, and `data.get` returns `None` for it,
    as for an absent key;
  - whether the exception object in the 500 response can be serialised is out of scope.
- `created_at` on every table and `Story.rating` are left out. The first needs a clock and
  the second is floating point.
- Concurrency and transactions are left out: the race between the uniqueness checks and the
  insert under concurrent requests, and the session's internals. Requests are sequential here.
- `logout` is left out: its body is empty.
- `Review.__repr__` and `Review.__str__` are left out: they read a `title` attribute that a
  Review does not have, so they raise.
- `Rating.__str__` and `Rating.__repr__` are left out: they only format the id in decimal.
- The declared string lengths (`String(80)`, `String(120)`) are not modelled. SQLite does not
  enforce them.
- The order of `first()` without `ORDER BY` is taken to be insertion order. Under unique emails
  and usernames at most one row matches, so the order does not matter.
- Foreign keys are not enforced by the database: SQLite ignores FOREIGN KEY clauses unless
  `PRAGMA foreign_keys=ON` is issued, and nothing in the code issues it. The store invariant
  assumes them anyway, because no code in this core writes stories, ratings or reviews.
- Deleting users or stories is not modelled: the core has no such operation.

## Findings

| source | as written | input that shows it | evidently intended | confidence | as-written member | corrected member |
|---|---|---|---|---|---|---|
| src/models.py:34 | `profile_picture` is NOT NULL, but `create_user` (src/views/auth.py:55) never sets it, so the commit always fails | any request that passes every check, e.g. username "bob", password "password1" and a free valid email: 500 and no account | the account is created with 201 (the column nullable, or a picture supplied) | not executed; holds when the user table was created from the declared model | `Auth.DeclaredSchemaNeverCreates` | `Auth.NullablePictureCreates` |

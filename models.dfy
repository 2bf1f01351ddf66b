/**
 * The four tables of the storytelling platform (User, Story, Rating, Review), the column
 * constraints the schema declares on them, and the string renderings of a User and a Story.
 *
 * A nullable column is an `Option`; a `nullable=False` column is a plain field, except
 * `User.profilePicture`: the account-creation path inserts a User without one, so the
 * row type must be able to hold the missing value that the store then rejects.
 * Timestamps (`created_at`) and the float `Story.rating` are not modelled.
 */
module Models {
  import opened Wrappers

  /** A row of the `user` table. `password` holds the stored hash. */
  datatype User = User(
    id: nat,
    username: string,
    password: string,
    email: string,
    name: Option<string>,
    bio: Option<string>,
    profilePicture: Option<string>)

  /** A row of the `story` table; `authorId` is a foreign key to `user.id`. */
  datatype Story = Story(
    id: nat,
    title: string,
    coverUrl: Option<string>,
    authorId: nat,
    genre: Option<string>,
    summary: Option<string>,
    content: string,
    numRatings: Option<int>)

  /** A row of the `rating` table; both ids are foreign keys. */
  datatype Rating = Rating(id: nat, storyId: nat, userId: nat, rating: int)

  /** A row of the `review` table; both ids are foreign keys. */
  datatype Review = Review(id: nat, storyId: nat, userId: nat, rating: int, reviewText: string)

  /** The contents of the database. */
  datatype Tables = Tables(users: seq<User>, stories: seq<Story>, ratings: seq<Rating>, reviews: seq<Review>)

  /**
   * Which constraint the `user` table puts on `profile_picture`. The declared model makes it
   * NOT NULL; `PictureNullable` is the relaxed table under which account creation can succeed.
   * Either way the column is UNIQUE, which (as in SQL) constrains only non-null values.
   */
  datatype Schema = Schema(pictureNotNull: bool)

  const Declared := Schema(true)
  const PictureNullable := Schema(false)

  // ----- constraints of the user table -----

  predicate UniqueUserIds(users: seq<User>) {
    forall i, j :: 0 <= i < j < |users| ==> users[i].id != users[j].id
  }

  predicate UniqueUsernames(users: seq<User>) {
    forall i, j :: 0 <= i < j < |users| ==> users[i].username != users[j].username
  }

  predicate UniqueEmails(users: seq<User>) {
    forall i, j :: 0 <= i < j < |users| ==> users[i].email != users[j].email
  }

  /** NOT NULL when the schema says so, and no picture shared by two users. */
  predicate PicturesAllowed(schema: Schema, users: seq<User>) {
    && (schema.pictureNotNull ==> forall i :: 0 <= i < |users| ==> users[i].profilePicture.Some?)
    && (forall i, j :: 0 <= i < j < |users| && users[i].profilePicture.Some? ==>
          users[i].profilePicture != users[j].profilePicture)
  }

  /** The constraints of the user table: primary key, UNIQUE username, email and picture, NOT NULL picture per schema. */
  predicate UsersConsistent(schema: Schema, users: seq<User>)
    ensures UsersConsistent(schema, users) ==>
              forall i, j :: 0 <= i < |users| && 0 <= j < |users| && users[i].username == users[j].username ==> i == j
    ensures UsersConsistent(schema, users) ==>
              forall i, j :: 0 <= i < |users| && 0 <= j < |users| && users[i].email == users[j].email ==> i == j
  {
    UniqueUserIds(users) && UniqueUsernames(users) && UniqueEmails(users) && PicturesAllowed(schema, users)
  }

  function UserIds(users: seq<User>): set<nat> {
    set u | u in users :: u.id
  }

  function StoryIds(stories: seq<Story>): set<nat> {
    set s | s in stories :: s.id
  }

  // ----- constraints of the other tables -----

  predicate StoriesConsistent(t: Tables) {
    && (forall i, j :: 0 <= i < j < |t.stories| ==> t.stories[i].id != t.stories[j].id)
    && (forall i :: 0 <= i < |t.stories| ==> t.stories[i].authorId in UserIds(t.users))
  }

  predicate RatingsConsistent(t: Tables) {
    && (forall i, j :: 0 <= i < j < |t.ratings| ==> t.ratings[i].id != t.ratings[j].id)
    && (forall i :: 0 <= i < |t.ratings| ==>
          t.ratings[i].storyId in StoryIds(t.stories) && t.ratings[i].userId in UserIds(t.users))
  }

  predicate ReviewsConsistent(t: Tables) {
    && (forall i, j :: 0 <= i < j < |t.reviews| ==> t.reviews[i].id != t.reviews[j].id)
    && (forall i :: 0 <= i < |t.reviews| ==>
          t.reviews[i].storyId in StoryIds(t.stories) && t.reviews[i].userId in UserIds(t.users))
  }

  /**
   * Every constraint the schema declares: primary keys, unique columns, NOT NULL and foreign keys.
   * SQLite enforces the first three; the foreign keys are an assumption the store keeps.
   */
  predicate Consistent(schema: Schema, t: Tables)
    ensures Consistent(schema, t) ==> forall s :: s in t.stories ==> exists u :: u in t.users && u.id == s.authorId
    ensures Consistent(schema, t) ==>
              forall r :: r in t.ratings ==>
                && (exists u :: u in t.users && u.id == r.userId)
                && (exists st :: st in t.stories && st.id == r.storyId)
    ensures Consistent(schema, t) ==>
              forall r :: r in t.reviews ==>
                && (exists u :: u in t.users && u.id == r.userId)
                && (exists st :: st in t.stories && st.id == r.storyId)
  {
    UsersConsistent(schema, t.users) && StoriesConsistent(t) && RatingsConsistent(t) && ReviewsConsistent(t)
  }

  // ----- queries -----

  /** The user columns the account service filters on. */
  datatype Column = UsernameColumn | EmailColumn

  function ColumnValue(u: User, c: Column): string {
    match c
    case UsernameColumn => u.username
    case EmailColumn => u.email
  }

  /** `User.query.filter_by(<column>=value).first()`: the position of the first matching row, if any. */
  function FilterFirst(users: seq<User>, c: Column, value: string): (r: Option<nat>)
    ensures r.Some? ==> r.value < |users| && ColumnValue(users[r.value], c) == value
    ensures r.Some? ==> forall j :: 0 <= j < r.value ==> ColumnValue(users[j], c) != value
    ensures r.None? <==> forall j :: 0 <= j < |users| ==> ColumnValue(users[j], c) != value
  {
    if users == [] then None
    else if ColumnValue(users[0], c) == value then Some(0)
    else
      match FilterFirst(users[1..], c, value)
      case None => None
      case Some(k) => Some(k + 1)
  }

  // ----- inserting a user -----

  /** The id SQLite gives the next row of an INTEGER PRIMARY KEY table: one more than the largest. */
  function NextUserId(users: seq<User>): (r: nat)
    ensures forall i :: 0 <= i < |users| ==> users[i].id < r
    ensures r == 1 || exists i :: 0 <= i < |users| && users[i].id == r - 1
  {
    if users == [] then 1
    else
      var rest := NextUserId(users[1..]);
      if users[0].id < rest then rest else users[0].id + 1
  }

  /** The per-column test the database runs on a new user row before it accepts it. */
  predicate Admissible(schema: Schema, users: seq<User>, row: User)
    ensures Admissible(schema, users, row) ==>
              && FilterFirst(users, UsernameColumn, row.username).None?
              && FilterFirst(users, EmailColumn, row.email).None?
              && (schema.pictureNotNull ==> row.profilePicture.Some?)
  {
    && (schema.pictureNotNull ==> row.profilePicture.Some?)
    && forall i :: 0 <= i < |users| ==>
         && users[i].id != row.id
         && users[i].username != row.username
         && users[i].email != row.email
         && (row.profilePicture.Some? ==> users[i].profilePicture != row.profilePicture)
  }

  /** The per-column test accepts a row exactly when the table with the row appended keeps every constraint. */
  lemma AdmissibleIffConsistent(schema: Schema, users: seq<User>, row: User)
    requires UsersConsistent(schema, users)
    ensures UsersConsistent(schema, users + [row]) <==> Admissible(schema, users, row)
  {
    var s := users + [row];
    if UsersConsistent(schema, s) {
      forall i | 0 <= i < |users|
        ensures users[i].id != row.id && users[i].username != row.username && users[i].email != row.email
        ensures row.profilePicture.Some? ==> users[i].profilePicture != row.profilePicture
      {
        assert s[i] == users[i] && s[|users|] == row;
      }
      assert s[|users|] == row;
    }
    if Admissible(schema, users, row) {
      forall i, j | 0 <= i < j < |s|
        ensures s[i].id != s[j].id && s[i].username != s[j].username && s[i].email != s[j].email
        ensures s[i].profilePicture.Some? ==> s[i].profilePicture != s[j].profilePicture
      {
        if j == |users| {
          assert s[i] == users[i] && s[j] == row;
        } else {
          assert s[i] == users[i] && s[j] == users[j];
        }
      }
      forall i | 0 <= i < |s| && schema.pictureNotNull
        ensures s[i].profilePicture.Some?
      {
        if i < |users| { assert s[i] == users[i]; }
      }
    }
  }

  /** Under the declared table a user without a profile picture is never accepted. */
  lemma DeclaredRejectsMissingPicture(users: seq<User>, row: User)
    requires row.profilePicture.None?
    ensures !UsersConsistent(Declared, users + [row])
  {
    assert (users + [row])[|users|] == row;
  }

  /** Appending a user keeps every foreign key of the other tables resolving. */
  lemma AddingUserKeepsForeignKeys(schema: Schema, t: Tables, row: User)
    requires Consistent(schema, t)
    requires UsersConsistent(schema, t.users + [row])
    ensures Consistent(schema, t.(users := t.users + [row]))
  {
    assert UserIds(t.users) <= UserIds(t.users + [row]) by {
      forall id | id in UserIds(t.users) ensures id in UserIds(t.users + [row]) {
        var u :| u in t.users && u.id == id;
        assert u in t.users + [row];
      }
    }
  }

  /** Nothing makes (user, story) unique: a consistent store can hold two ratings by one user of one story. */
  lemma RatingPairNotUnique()
    ensures exists t: Tables ::
              && Consistent(Declared, t)
              && |t.ratings| == 2
              && t.ratings[0].userId == t.ratings[1].userId
              && t.ratings[0].storyId == t.ratings[1].storyId
  {
    var u := User(1, "ann", "h", "ann@example.org", None, None, Some("ann.png"));
    var s := Story(1, "Title", None, 1, None, None, "Once upon a time", None);
    var t := Tables([u], [s], [Rating(1, 1, 1, 5), Rating(2, 1, 1, 3)], []);
    assert u in t.users;
    assert 1 in UserIds(t.users);
    assert s in t.stories;
    assert 1 in StoryIds(t.stories);
    assert Consistent(Declared, t);
  }

  // ----- renderings -----

  const UserStrPrefix := "<User(username='"
  const UserStrSuffix := "')>"

  /** `str` (and `repr`) of a User: the username, quoted, inside a fixed frame it can be read back from. */
  function UserStr(u: User): (r: string)
    ensures UsernameOfStr(r) == Some(u.username)
  {
    var r := UserStrPrefix + u.username + UserStrSuffix;
    assert r[..|UserStrPrefix|] == UserStrPrefix;
    assert r[|r| - |UserStrSuffix|..] == UserStrSuffix;
    assert r[|UserStrPrefix|..|r| - |UserStrSuffix|] == u.username;
    r
  }

  /**
   * Reads the username back out of a User's rendering. The source has no such parser; it is
   * here only to state that the rendering loses nothing.
   */
  function UsernameOfStr(s: string): Option<string> {
    if |s| >= |UserStrPrefix| + |UserStrSuffix|
       && s[..|UserStrPrefix|] == UserStrPrefix
       && s[|s| - |UserStrSuffix|..] == UserStrSuffix
    then Some(s[|UserStrPrefix|..|s| - |UserStrSuffix|])
    else None
  }

  /** Two users render alike exactly when their usernames agree, so on a consistent store a rendering names one user. */
  lemma UserStrInjective(u: User, v: User)
    ensures UserStr(u) == UserStr(v) <==> u.username == v.username
  {
  }

  /** `str` of a Story: its title, which is also what its `repr` wraps. */
  function StoryStr(s: Story): (r: string)
    ensures TitleOfRepr(StoryRepr(s)) == Some(r)
  {
    s.title
  }

  /** `repr` of a Story: the title inside a fixed frame it can be read back from. */
  function StoryRepr(s: Story): (r: string)
    ensures TitleOfRepr(r) == Some(s.title)
  {
    var r := "<Story " + s.title + ">";
    assert r[..7] == "<Story ";
    assert r[7..|r| - 1] == s.title;
    r
  }

  /**
   * Reads the title back out of a Story's `repr`. The source has no such parser; it is here
   * only to state that the rendering loses nothing.
   */
  function TitleOfRepr(r: string): Option<string> {
    if |r| >= 8 && r[..7] == "<Story " && r[|r| - 1] == '>' then Some(r[7..|r| - 1]) else None
  }
}

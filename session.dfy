/**
 * The shared database session: the tables it holds and the one write the account service
 * makes through it, `add` of a user row followed by `commit`, or `rollback` when the commit
 * raises. A commit raises when the row breaks a column constraint (an integrity error) or
 * when the database fails for a reason of its own, which the caller passes in as `commitOk`.
 */
module Session {
  import opened Models

  class Store {
    const schema: Schema
    var users: seq<User>
    var stories: seq<Story>
    var ratings: seq<Rating>
    var reviews: seq<Review>

    function Contents(): Tables
      reads this
    {
      Tables(users, stories, ratings, reviews)
    }

    /** The store keeps every constraint of its schema between requests. */
    ghost predicate Valid()
      reads this
    {
      Consistent(schema, Contents())
    }

    constructor (schema: Schema)
      ensures Valid()
      ensures this.schema == schema && Contents() == Tables([], [], [], [])
    {
      this.schema := schema;
      users, stories, ratings, reviews := [], [], [], [];
    }

    /**
     * `add(row)` then `commit()`: the database gives the row the next id and keeps it when the
     * commit succeeds; otherwise `rollback()` leaves the tables as they were.
     */
    method AddAndCommit(row: User, commitOk: bool) returns (committed: bool)
      requires Valid()
      modifies this
      ensures Valid()
      ensures var stored := row.(id := NextUserId(old(users)));
              && committed == (commitOk && UsersConsistent(schema, old(users) + [stored]))
              && users == (if committed then old(users) + [stored] else old(users))
      ensures stories == old(stories) && ratings == old(ratings) && reviews == old(reviews)
    {
      var stored := row.(id := NextUserId(users));
      AdmissibleIffConsistent(schema, users, stored);
      if commitOk && Admissible(schema, users, stored) {
        AddingUserKeepsForeignKeys(schema, Contents(), stored);
        users := users + [stored];
        committed := true;
      } else {
        committed := false;
      }
    }
  }
}

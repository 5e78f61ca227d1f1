/** The `link:discord` command: attach a Discord user id to the account with
    a given email, refusing an id that another account already holds. */
module LinkDiscord {
  import opened Wrappers
  import opened Tables
  import UserModel

  datatype LinkOutcome = UserNotFound | AlreadyLinked(otherEmail: string) | Linked

  function HasEmail(email: string): UserModel.User -> bool {
    (u: UserModel.User) => u.email == email
  }

  function HasDiscordId(discordId: string): UserModel.User -> bool {
    (u: UserModel.User) => u.discordId == Some(discordId)
  }

  /** No two accounts share a Discord id (the column's unique constraint). */
  ghost predicate DiscordIdsUnique(users: seq<UserModel.User>) {
    forall i, j :: 0 <= i < j < |users| && users[i].discordId.Some? ==> users[i].discordId != users[j].discordId
  }

  /** Account ids are the primary key. */
  ghost predicate IdsUnique(users: seq<UserModel.User>) {
    forall i, j :: 0 <= i < j < |users| ==> users[i].id != users[j].id
  }

  /** The users table after the command, and what it reports. */
  function Link(users: seq<UserModel.User>, email: string, discordId: string): (r: (seq<UserModel.User>, LinkOutcome))
    ensures |r.0| == |users|
    ensures r.1 != Linked ==> r.0 == users
    ensures r.1 == UserNotFound <==> forall j :: 0 <= j < |users| ==> users[j].email != email
    ensures r.1.AlreadyLinked? ==> exists j :: (0 <= j < |users| && users[j].discordId == Some(discordId)
      && users[j].email == r.1.otherEmail && users[j].id != users[FirstIndex(users, HasEmail(email)).value].id)
    ensures r.1 == Linked ==>
      var i := FirstIndex(users, HasEmail(email)).value;
      users[i].email == email && r.0 == users[i := users[i].(discordId := Some(discordId))]
  {
    var target := FirstIndex(users, HasEmail(email));
    if target.None? then (users, UserNotFound)
    else
      var user := users[target.value];
      var existing := FirstIndex(users, HasDiscordId(discordId));
      if existing.Some? && users[existing.value].id != user.id then (users, AlreadyLinked(users[existing.value].email))
      else (users[target.value := user.(discordId := Some(discordId))], Linked)
  }

  /** `run`: two lookups, then the assignment and save. */
  method Run(users: Table<UserModel.User>, email: string, discordId: string) returns (outcome: LinkOutcome)
    modifies users
    ensures (users.rows, outcome) == Link(old(users.rows), email, discordId)
  {
    var target := FirstIndex(users.rows, HasEmail(email));
    if target.None? {
      return UserNotFound;
    }
    var user := users.rows[target.value];
    var existing := FirstIndex(users.rows, HasDiscordId(discordId));
    if existing.Some? && users.rows[existing.value].id != user.id {
      return AlreadyLinked(users.rows[existing.value].email);
    }
    users.rows := users.rows[target.value := user.(discordId := Some(discordId))];
    outcome := Linked;
  }

  /** Linking never gives two accounts the same Discord id: the only account
      that gains the id is the target, and when another account holds it the
      command refuses. */
  lemma LinkKeepsDiscordIdsUnique(users: seq<UserModel.User>, email: string, discordId: string)
    requires DiscordIdsUnique(users) && IdsUnique(users)
    ensures DiscordIdsUnique(Link(users, email, discordId).0)
  {
    var r := Link(users, email, discordId);
    if r.1 == Linked {
      var i := FirstIndex(users, HasEmail(email)).value;
      var after := r.0;
      forall a, b | 0 <= a < b < |after| && after[a].discordId.Some?
        ensures after[a].discordId != after[b].discordId
      {
        if a == i || b == i {
          var other := if a == i then b else a;
          var existing := FirstIndex(users, HasDiscordId(discordId));
          assert existing.Some? ==> existing.value == i;
          assert after[other] == users[other];
        }
      }
    }
  }

  /** Linking an account to the id it already has is allowed and changes nothing. */
  lemma RelinkIsNoChange(users: seq<UserModel.User>, email: string, discordId: string)
    requires DiscordIdsUnique(users)
    requires exists j :: 0 <= j < |users| && users[j].email == email
    requires users[FirstIndex(users, HasEmail(email)).value].discordId == Some(discordId)
    ensures Link(users, email, discordId) == (users, Linked)
  {
    var i := FirstIndex(users, HasEmail(email)).value;
    var existing := FirstIndex(users, HasDiscordId(discordId));
    assert existing.Some? && existing.value == i;
    assert users[i := users[i].(discordId := Some(discordId))] == users;
  }
}

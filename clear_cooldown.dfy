/** The `nudge:clear-cooldown` command: for the user with a given email it
    deletes that user's 'sent' rows from both nudge audit tables, which are
    the rows the two cooldowns are computed from. */
module ClearCooldown {
  import opened Wrappers
  import opened Models
  import opened Tables
  import UserModel
  import Text

  /** What the command reports: no such user, nothing to clear, or the two deletion counts. */
  datatype Report = UserNotFound | NoCooldowns | Cleared(playerCount: nat, matchCount: nat)

  /** `User.findBy('email', email)`: the first user with that email. */
  function FindByEmail(users: seq<UserModel.User>, email: string): (r: Option<UserModel.User>)
    ensures r.None? <==> forall i :: 0 <= i < |users| ==> users[i].email != email
    ensures r.Some? ==> r.value in users && r.value.email == email
  {
    var i := Tables.FirstIndex(users, (u: UserModel.User) => u.email == email);
    if i.None? then None else Some(users[i.value])
  }

  /** The player nudge rows the command deletes for a user. */
  function SentPlayerRow(userId: int): PlayerNudgeRow -> bool {
    (r: PlayerNudgeRow) => r.userId == userId && r.status == Sent
  }

  /** The match availability nudge rows the command deletes for a user. */
  function SentMatchRow(userId: int): MatchNudgeRow -> bool {
    (r: MatchNudgeRow) => r.userId == userId && r.status == Sent
  }

  /** The report for two deletion counts. */
  function ReportOf(playerCount: nat, matchCount: nat): (r: Report)
    ensures r == NoCooldowns <==> playerCount == 0 && matchCount == 0
    ensures r.Cleared? ==> r.playerCount == playerCount && r.matchCount == matchCount
  {
    if playerCount == 0 && matchCount == 0 then NoCooldowns else Cleared(playerCount, matchCount)
  }

  /** The line the command logs for a report. */
  function Message(email: string, r: Report): string {
    match r
    case UserNotFound => "User not found with email: " + email
    case NoCooldowns => "No active nudge cooldowns found for " + email
    case Cleared(p, m) =>
      "Cleared cooldowns for " + email + ": " + Text.NatToString(p) + " player data nudge(s), "
      + Text.NatToString(m) + " match availability nudge(s)"
  }

  /** `run`: an unknown email changes nothing; otherwise exactly the user's
      'sent' rows leave both tables, in place, and the counts are reported. */
  method Run(users: seq<UserModel.User>, email: string, playerLog: Table<PlayerNudgeRow>, matchLog: Table<MatchNudgeRow>)
    returns (report: Report)
    modifies playerLog, matchLog
    ensures FindByEmail(users, email).None? ==>
      report == UserNotFound && playerLog.rows == old(playerLog.rows) && matchLog.rows == old(matchLog.rows)
    ensures FindByEmail(users, email).Some? ==>
      var id := FindByEmail(users, email).value.id;
      playerLog.rows == Filter(old(playerLog.rows), Not(SentPlayerRow(id)))
      && matchLog.rows == Filter(old(matchLog.rows), Not(SentMatchRow(id)))
      && report == ReportOf(CountWhere(old(playerLog.rows), SentPlayerRow(id)), CountWhere(old(matchLog.rows), SentMatchRow(id)))
  {
    var user := FindByEmail(users, email);
    if user.None? {
      return UserNotFound;
    }
    var playerCount := playerLog.DeleteWhere(SentPlayerRow(user.value.id));
    var matchCount := matchLog.DeleteWhere(SentMatchRow(user.value.id));
    report := ReportOf(playerCount, matchCount);
  }

  /** A player nudge row survives the command exactly when it is not a 'sent'
      row of the user: blocked and failed rows and other users' rows stay. */
  lemma KeepsPlayerRow(rows: seq<PlayerNudgeRow>, userId: int, r: PlayerNudgeRow)
    ensures r in Filter(rows, Not(SentPlayerRow(userId))) <==> r in rows && (r.userId != userId || r.status != Sent)
  {
    FilterMembers(rows, Not(SentPlayerRow(userId)), r);
  }

  /** The same for match availability nudge rows. */
  lemma KeepsMatchRow(rows: seq<MatchNudgeRow>, userId: int, r: MatchNudgeRow)
    ensures r in Filter(rows, Not(SentMatchRow(userId))) <==> r in rows && (r.userId != userId || r.status != Sent)
  {
    FilterMembers(rows, Not(SentMatchRow(userId)), r);
  }

  /** Running the command twice for the same user: the second run deletes
      nothing and reports that no cooldowns were found. */
  lemma SecondRunClearsNothing(players: seq<PlayerNudgeRow>, matches: seq<MatchNudgeRow>, userId: int)
    ensures var p := Filter(players, Not(SentPlayerRow(userId)));
            var m := Filter(matches, Not(SentMatchRow(userId)));
            Filter(p, Not(SentPlayerRow(userId))) == p
            && Filter(m, Not(SentMatchRow(userId))) == m
            && ReportOf(CountWhere(p, SentPlayerRow(userId)), CountWhere(m, SentMatchRow(userId))) == NoCooldowns
  {
    FilterIdempotent(players, Not(SentPlayerRow(userId)));
    FilterIdempotent(matches, Not(SentMatchRow(userId)));
    NoneLeft(players, SentPlayerRow(userId));
    NoneLeft(matches, SentMatchRow(userId));
  }
}

/** The page behind a signed response link: verify the token, find the match
    and the player, refuse a past match, and otherwise record the answer. */
module ResponseController {
  import opened Wrappers
  import opened Models
  import opened Tables
  import Token
  import Timezone
  import UserModel
  import MatchNudge

  /** What the success page shows besides its title and message. The formatted
      time is represented by the zone it is shown in. */
  datatype Details = Details(opponentName: string, mapName: string, zone: Timezone.Zone)

  datatype ResponsePage = ResponsePage(httpStatus: int, success: bool, title: string, message: string, details: Option<Details>)

  /** `statusLabelByValue`. */
  function StatusLabel(s: Token.ResponseStatus): (r: string)
    ensures r == [Token.StatusText(s)[0] - 'a' as char + 'A' as char] + Token.StatusText(s)[1..]
  {
    match s
    case Yes => "Yes"
    case Maybe => "Maybe"
    case No => "No"
  }

  const INVALID := ResponsePage(400, false, "Invalid Link", "This response link is invalid.", None)
  const EXPIRED := ResponsePage(410, false, "Link Expired", "This response link has expired.", None)
  const NOT_FOUND := ResponsePage(404, false, "Invalid Link", "This response link is no longer valid.", None)
  const PASSED := ResponsePage(410, false, "Match Already Passed",
                               "This match is in the past, so availability can no longer be updated.", None)

  /** The success page for a recorded answer. */
  function Recorded(m: Match, u: UserModel.User, status: Token.ResponseStatus): ResponsePage {
    ResponsePage(200, true, "Availability Updated",
                 "Your response has been recorded as \"" + StatusLabel(status) + "\".",
                 Some(Details(m.opponentName.GetOr("TBD"),
                              if m.valorantMap.Some? then m.valorantMap.value else m.mapName.GetOr("TBD"),
                              MatchNudge.DisplayZone(u.timezone))))
  }

  /** `show`. `nowMs` is the current time. */
  method Show(codec: Token.Codec, token: string, nowMs: int, matches: seq<Match>, users: seq<UserModel.User>,
              table: KeyedTable<AvailabilityKey, string>)
    returns (page: ResponsePage)
    requires table.Valid()
    modifies table
    ensures table.Valid()
    ensures Token.VerifyToken(codec, token, nowMs) == Err(Token.TokenExpired) ==> page == EXPIRED
    ensures Token.VerifyToken(codec, token, nowMs) == Err(Token.TokenInvalid) ==> page == INVALID
    ensures page.success <==> page.httpStatus == 200
    ensures !page.success ==> table.rows == old(table.rows)
    ensures page.success ==>
      var p := Token.VerifyToken(codec, token, nowMs).value;
      var m := Find(matches, p.matchId, MatchId);
      var u := Find(users, p.userId, UserModel.UserId);
      Token.VerifyToken(codec, token, nowMs).Ok? && m.Some? && u.Some? && m.value.scheduledAtMs > nowMs
      && table.rows == Upsert(old(table.rows), AvailabilityKey(m.value.id, u.value.id), Token.StatusText(p.status))
      && page == Recorded(m.value, u.value, p.status)
    ensures Token.VerifyToken(codec, token, nowMs).Ok? ==>
      var p := Token.VerifyToken(codec, token, nowMs).value;
      var m := Find(matches, p.matchId, MatchId);
      var u := Find(users, p.userId, UserModel.UserId);
      (m.None? || u.None? ==> page == NOT_FOUND)
      && (m.Some? && u.Some? && m.value.scheduledAtMs <= nowMs ==> page == PASSED)
  {
    var verification := Token.VerifyToken(codec, token, nowMs);
    if verification.Err? {
      page := if verification.error == Token.TokenExpired then EXPIRED else INVALID;
      return;
    }
    var p := verification.value;
    var m := Find(matches, p.matchId, MatchId);
    var u := Find(users, p.userId, UserModel.UserId);
    if m.None? || u.None? {
      return NOT_FOUND;
    }
    if m.value.scheduledAtMs <= nowMs {
      return PASSED;
    }
    table.UpdateOrCreate(AvailabilityKey(m.value.id, u.value.id), Token.StatusText(p.status));
    page := Recorded(m.value, u.value, p.status);
  }

  /** Following the same link twice leaves the same answer: the second upsert
      writes what the first wrote. */
  lemma ReplayIdempotent(rows: seq<(AvailabilityKey, string)>, k: AvailabilityKey, status: Token.ResponseStatus)
    ensures Upsert(Upsert(rows, k, Token.StatusText(status)), k, Token.StatusText(status))
      == Upsert(rows, k, Token.StatusText(status))
  {
    UpsertIdempotent(rows, k, Token.StatusText(status));
  }
}

/** The admin action that nudges a match's non-responders: read the `force`
    flag, run the nudge service, flash its message and go back to the match. */
module NudgesController {
  import opened Wrappers
  import opened Models
  import opened Tables
  import opened Forms
  import Text
  import UserModel
  import MatchNudge
  import Middleware

  /** The flash of a service outcome: an error for failed or blocked, a success otherwise. */
  function OutcomeFlash(outcome: MatchNudge.NudgeOutcome): (f: Flash)
    ensures f.message == outcome.message
    ensures f.kind == FlashError <==> outcome.status in {MatchNudge.ResultFailed, MatchNudge.ResultBlocked}
    ensures f.kind == FlashSuccess <==> outcome.status in {MatchNudge.ResultSent, MatchNudge.ResultPartial}
  {
    match outcome.status
    case ResultFailed | ResultBlocked => Flash(FlashError, outcome.message)
    case ResultSent | ResultPartial => Flash(FlashSuccess, outcome.message)
  }

  /** What `store` answers: a 404 page, or a redirect carrying a flash. */
  datatype Reply = NotFound | Redirected(flash: Flash, path: string)

  /** `store` once `Match.findOrFail` has found the match. */
  method Store(log: Table<MatchNudgeRow>, svc: MatchNudge.Services, admin: UserModel.User, m: Match,
               forceInput: FormValue, users: seq<UserModel.User>, avail: seq<(AvailabilityKey, string)>, nowMs: int)
    returns (flash: Flash, redirect: string)
    modifies log
    ensures var (rows, outcome) := MatchNudge.Nudges(old(log.rows), svc, admin, m, users, avail, ToBoolean(forceInput), nowMs);
      log.rows == rows && flash == OutcomeFlash(outcome)
    ensures redirect == "/matches/" + Text.IntToString(m.id)
  {
    var outcome := MatchNudge.SendNonResponderNudges(log, svc, admin, m, users, avail, ToBoolean(forceInput), nowMs);
    flash := OutcomeFlash(outcome);
    redirect := "/matches/" + Text.IntToString(m.id);
  }

  /** `store` for a match id: an id no match has answers 404 before the
      service runs, so no audit row is written. */
  method StoreById(log: Table<MatchNudgeRow>, svc: MatchNudge.Services, admin: UserModel.User,
                   matches: seq<Match>, matchId: int, forceInput: FormValue, users: seq<UserModel.User>,
                   avail: seq<(AvailabilityKey, string)>, nowMs: int)
    returns (reply: Reply)
    modifies log
    ensures reply.NotFound? <==> forall m :: m in matches ==> m.id != matchId
    ensures reply.NotFound? ==> log.rows == old(log.rows)
    ensures reply.Redirected? ==> var m := Find(matches, matchId, MatchId).value;
      var (rows, outcome) := MatchNudge.Nudges(old(log.rows), svc, admin, m, users, avail, ToBoolean(forceInput), nowMs);
      m in matches && m.id == matchId
      && log.rows == rows && reply.flash == OutcomeFlash(outcome) && reply.path == "/matches/" + Text.IntToString(matchId)
  {
    var found := Find(matches, matchId, MatchId);
    if found.None? {
      return NotFound;
    }
    var flash, redirect := Store(log, svc, admin, found.value, forceInput, users, avail, nowMs);
    reply := Redirected(flash, redirect);
  }

  /** The route as mounted: behind the admin gate. A request without an admin
      user is redirected before the match is looked up or the service runs, so
      no audit row is written. */
  method GuardedStore(viewer: Option<UserModel.User>, log: Table<MatchNudgeRow>, svc: MatchNudge.Services,
                      matches: seq<Match>, matchId: int, forceInput: FormValue, users: seq<UserModel.User>,
                      avail: seq<(AvailabilityKey, string)>, nowMs: int)
    returns (reply: Reply)
    modifies log
    ensures !(viewer.Some? && UserModel.IsAdmin(viewer.value)) ==>
      log.rows == old(log.rows) && reply == Redirected(Flash(FlashError, Middleware.FORBIDDEN_MESSAGE), "/dashboard")
    ensures viewer.Some? && UserModel.IsAdmin(viewer.value) ==>
      (reply.NotFound? <==> forall m :: m in matches ==> m.id != matchId)
    ensures viewer.Some? && UserModel.IsAdmin(viewer.value) && reply.NotFound? ==> log.rows == old(log.rows)
    ensures viewer.Some? && UserModel.IsAdmin(viewer.value) && reply.Redirected? ==>
      var m := Find(matches, matchId, MatchId).value;
      var (rows, outcome) := MatchNudge.Nudges(old(log.rows), svc, viewer.value, m, users, avail, ToBoolean(forceInput), nowMs);
      log.rows == rows && reply.flash == OutcomeFlash(outcome) && reply.path == "/matches/" + Text.IntToString(matchId)
  {
    var gate := Middleware.Admin(viewer);
    if gate.Redirect? {
      return Redirected(gate.flash.value, gate.path);
    }
    reply := StoreById(log, svc, viewer.value, matches, matchId, forceInput, users, avail, nowMs);
  }
}

/** The match availability nudge: an admin reminds every eligible player who
    has not answered for an upcoming match, one direct message each, and every
    attempt appends one row to the `match_availability_nudges` audit log. */
module MatchNudge {
  import opened Wrappers
  import opened Models
  import opened Tables
  import opened NudgeLog
  import DmFailure
  import DiscordDm
  import UserModel
  import Token
  import Timezone
  import Text

  const RESPONSE_STATUSES: seq<string> := ["yes", "maybe", "no"]

  datatype ResultStatus = ResultSent | ResultPartial | ResultBlocked | ResultFailed

  datatype NudgeOutcome = NudgeOutcome(
    status: ResultStatus,
    message: string,
    targetCount: nat,
    sentCount: nat,
    skippedCount: nat,
    failedCount: nat)

  /** What `sendMatchAvailabilityNudge` is given. The formatted local time is
      represented by the instant and the zone it is shown in. */
  datatype MatchNudgeRequest = MatchNudgeRequest(
    discordUserId: string,
    playerName: string,
    matchType: string,
    opponentName: Option<string>,
    mapName: string,
    scheduledAtMs: int,
    displayZone: Timezone.Zone,
    yesPath: string,
    maybePath: string,
    noPath: string)

  /** The collaborators: the token service's codec and the DM sender. */
  datatype Services = Services(codec: Token.Codec, send: MatchNudgeRequest -> DiscordDm.DmResult)

  // ---------------------------------------------------------------- recipients

  /** The player has a yes/maybe/no row for the match. */
  predicate HasResponded(avail: seq<(AvailabilityKey, string)>, matchId: int, userId: int) {
    var answer := Lookup(avail, AvailabilityKey(matchId, userId));
    answer.Some? && answer.value in RESPONSE_STATUSES
  }

  predicate Eligible(u: UserModel.User) {
    u.isOnRoster && u.approvalStatus == "approved" && u.discordId.Some?
  }

  /** `getEligibleNonResponders`, keeping the order of `users`: the
      recipients are exactly the roster, approved, Discord-linked players
      without an answer. */
  function EligibleNonResponders(users: seq<UserModel.User>, avail: seq<(AvailabilityKey, string)>, matchId: int)
    : (r: seq<UserModel.User>)
    ensures |r| <= |users|
    ensures forall u :: u in r <==>
      u in users && u.isOnRoster && u.approvalStatus == "approved" && u.discordId.Some?
      && !HasResponded(avail, matchId, u.id)
  {
    var keep := (u: UserModel.User) => Eligible(u) && !HasResponded(avail, matchId, u.id);
    forall u ensures u in Filter(users, keep) <==> u in users && keep(u) {
      FilterMembers(users, keep, u);
    }
    Filter(users, keep)
  }

  // ------------------------------------------------------------------ message

  /** `player.fullName ?? player.discordUsername ?? player.email`. */
  function PlayerName(p: UserModel.User): string {
    p.fullName.GetOr(p.discordUsername.GetOr(p.email))
  }

  /** The zone the time is shown in: the player's, or UTC when it is not a valid zone. */
  function DisplayZone(tz: Timezone.Zone): (z: Timezone.Zone)
    ensures z.Fixed?
    ensures tz.Fixed? ==> z == tz
  {
    if tz.Fixed? then tz else Timezone.Fixed(0)
  }

  /** `buildActionPath`: the response link carrying a freshly created token. */
  function ActionPath(c: Token.Codec, m: Match, p: UserModel.User, status: Token.ResponseStatus, nowMs: int): (path: string)
    ensures Text.StartsWith(path, "/match-availability/respond/")
  {
    "/match-availability/respond/" + Token.CreateToken(c, m.id, p.id, status, None, nowMs)
  }

  /** The token in an action path verifies, until it expires, to this match,
      this player and the status of the button. */
  lemma ActionPathVerifies(c: Token.Codec, m: Match, p: UserModel.User, status: Token.ResponseStatus, createdMs: int, nowMs: int)
    requires Token.Sound(c)
    requires m.id > 0 && p.id > 0
    requires 0 <= createdMs <= nowMs < createdMs + Token.TOKEN_TTL_HOURS * Token.MS_PER_HOUR - 1000
    requires createdMs + Token.TOKEN_TTL_HOURS * Token.MS_PER_HOUR <= Token.MAX_DATE_MS
    ensures var path := ActionPath(c, m, p, status, createdMs);
      var r := Token.VerifyToken(c, path[|"/match-availability/respond/"|..], nowMs);
      r.Ok? && r.value.matchId == m.id && r.value.userId == p.id && r.value.status == status
  {
    var path := ActionPath(c, m, p, status, createdMs);
    assert path[|"/match-availability/respond/"|..] == Token.CreateToken(c, m.id, p.id, status, None, createdMs);
    Token.CreateThenVerify(c, m.id, p.id, status, None, createdMs, nowMs);
  }

  /** The request for one player: opponent only for scrims (`TBD` when unknown),
      the synced Valorant map before the planned one, and one link per answer. */
  function NudgeRequest(c: Token.Codec, m: Match, p: UserModel.User, nowMs: int): (r: MatchNudgeRequest)
    ensures r.opponentName.Some? <==> m.matchType == "scrim"
    ensures r.mapName == if m.valorantMap.Some? then m.valorantMap.value else m.mapName.GetOr("TBD")
    ensures r.displayZone.Fixed?
    ensures r.yesPath == ActionPath(c, m, p, Token.Yes, nowMs) && r.maybePath == ActionPath(c, m, p, Token.Maybe, nowMs)
      && r.noPath == ActionPath(c, m, p, Token.No, nowMs)
  {
    MatchNudgeRequest(
      p.discordId.GetOr(""),
      PlayerName(p),
      m.matchType,
      if m.matchType == "scrim" then Some(m.opponentName.GetOr("TBD")) else None,
      m.valorantMap.GetOr(m.mapName.GetOr("TBD")),
      m.scheduledAtMs,
      DisplayZone(p.timezone),
      ActionPath(c, m, p, Token.Yes, nowMs),
      ActionPath(c, m, p, Token.Maybe, nowMs),
      ActionPath(c, m, p, Token.No, nowMs))
  }

  // ----------------------------------------------------------------- cooldown

  /** The two timestamps of a log row that the cooldown reads. */
  function StampOf(r: MatchNudgeRow): Stamp {
    Stamp(r.sentAtMs, r.createdAtMs)
  }

  /** The log rows `isOnCooldown` queries: this match, this player, status sent. */
  function SentRows(log: seq<MatchNudgeRow>, matchId: int, userId: int): seq<MatchNudgeRow> {
    Filter(log, (r: MatchNudgeRow) => r.matchId == matchId && r.userId == userId && r.status == Sent)
  }

  /** `isOnCooldown`. */
  predicate IsOnCooldown(log: seq<MatchNudgeRow>, matchId: int, userId: int, nowMs: int) {
    OnCooldown(StampsOf(SentRows(log, matchId, userId), StampOf), nowMs)
  }

  /** Rows of other players do not move a player's cooldown. */
  lemma CooldownIgnoresOthers(log: seq<MatchNudgeRow>, extra: seq<MatchNudgeRow>, matchId: int, userId: int)
    requires forall i :: 0 <= i < |extra| ==> extra[i].userId != userId
    ensures SentRows(log + extra, matchId, userId) == SentRows(log, matchId, userId)
  {
    var keep := (r: MatchNudgeRow) => r.matchId == matchId && r.userId == userId && r.status == Sent;
    FilterAppend(log, extra, keep);
    FilterNone(extra, keep);
    assert Filter(log, keep) + [] == Filter(log, keep);
  }

  // ------------------------------------------------------------------ attempt

  const COOLDOWN_MESSAGE: string := "Cooldown active for this match/player nudge"

  /** The audit row one recipient produces. */
  function Attempt(log: seq<MatchNudgeRow>, svc: Services, admin: UserModel.User, m: Match,
                   p: UserModel.User, force: bool, nowMs: int): (row: MatchNudgeRow)
    ensures row.matchId == m.id && row.userId == p.id && row.adminUserId == admin.id && row.createdAtMs == nowMs
  {
    if !force && IsOnCooldown(log, m.id, p.id, nowMs) then
      MatchNudgeRow(m.id, p.id, admin.id, Blocked, false, Some("cooldown_active"), Some(COOLDOWN_MESSAGE), None, nowMs)
    else
      var dm := svc.send(NudgeRequest(svc.codec, m, p, nowMs));
      if !dm.ok then
        var failure := DmFailure.Classify(dm.errorCode, dm.errorMessage);
        MatchNudgeRow(m.id, p.id, admin.id, failure.status, force, Some(failure.errorCode),
                      Some(dm.errorMessage.GetOr("Unknown Discord DM send failure")), None, nowMs)
      else
        MatchNudgeRow(m.id, p.id, admin.id, Sent, force, None, None, Some(nowMs), nowMs)
  }

  /** Without force, a player on cooldown gets a blocked 'cooldown_active' row
      with forced=false and no DM; otherwise the DM is sent and its result
      decides the row: sent with `sentAt` = now and no error, or the
      classified status and code, never sent, carrying the caller's force flag. */
  lemma AttemptCases(log: seq<MatchNudgeRow>, svc: Services, admin: UserModel.User, m: Match,
                     p: UserModel.User, force: bool, nowMs: int)
    ensures var row := Attempt(log, svc, admin, m, p, force, nowMs);
      (!force && IsOnCooldown(log, m.id, p.id, nowMs) ==>
        row == MatchNudgeRow(m.id, p.id, admin.id, Blocked, false, Some("cooldown_active"), Some(COOLDOWN_MESSAGE), None, nowMs))
      && ((force || !IsOnCooldown(log, m.id, p.id, nowMs)) ==>
        var dm := svc.send(NudgeRequest(svc.codec, m, p, nowMs));
        var failure := DmFailure.Classify(dm.errorCode, dm.errorMessage);
        row.forced == force
        && (dm.ok ==> row.status == Sent && row.errorCode == None && row.errorMessage == None && row.sentAtMs == Some(nowMs))
        && (!dm.ok ==>
             (row.status == failure.status && row.status != Sent && row.errorCode == Some(failure.errorCode)
              && row.errorMessage == Some(dm.errorMessage.GetOr("Unknown Discord DM send failure")) && row.sentAtMs == None)))
  {
  }

  /** The row depends on the log only through the player's sent rows for the match. */
  lemma AttemptReadsSentRows(log1: seq<MatchNudgeRow>, log2: seq<MatchNudgeRow>, svc: Services, admin: UserModel.User,
                             m: Match, p: UserModel.User, force: bool, nowMs: int)
    requires SentRows(log1, m.id, p.id) == SentRows(log2, m.id, p.id)
    ensures Attempt(log1, svc, admin, m, p, force, nowMs) == Attempt(log2, svc, admin, m, p, force, nowMs)
  {
  }

  // -------------------------------------------------------------------- batch

  datatype Batch = Batch(log: seq<MatchNudgeRow>, sent: nat, skipped: nat, failed: nat)

  function Tick(row: MatchNudgeRow): (nat, nat, nat) {
    match row.status
    case Sent => (1, 0, 0)
    case Blocked => (0, 1, 0)
    case Failed => (0, 0, 1)
  }

  /** One attempt of the loop: the row a recipient gets from the log as it stands. */
  type Step = (seq<MatchNudgeRow>, UserModel.User) -> MatchNudgeRow

  /** The loop over the recipients for any attempt: each attempt reads the log
      as the earlier attempts left it and appends its row; a blocked row
      counts as skipped. */
  function Run(log: seq<MatchNudgeRow>, step: Step, recipients: seq<UserModel.User>): (b: Batch)
    ensures |b.log| == |log| + |recipients| && b.log[..|log|] == log
    ensures b.sent + b.skipped + b.failed == |recipients|
    decreases |recipients|
  {
    if recipients == [] then Batch(log, 0, 0, 0)
    else
      var row := step(log, recipients[0]);
      var rest := Run(log + [row], step, recipients[1..]);
      var t := Tick(row);
      Batch(rest.log, rest.sent + t.0, rest.skipped + t.1, rest.failed + t.2)
  }

  /** The attempt of `sendNonResponderNudges` as a step. */
  function AttemptStep(svc: Services, admin: UserModel.User, m: Match, force: bool, nowMs: int): Step {
    (l: seq<MatchNudgeRow>, p: UserModel.User) => Attempt(l, svc, admin, m, p, force, nowMs)
  }

  /** The loop of `sendNonResponderNudges`. */
  function RunBatch(log: seq<MatchNudgeRow>, svc: Services, admin: UserModel.User, m: Match,
                    recipients: seq<UserModel.User>, force: bool, nowMs: int): (b: Batch)
    ensures |b.log| == |log| + |recipients| && b.log[..|log|] == log
    ensures b.sent + b.skipped + b.failed == |recipients|
  {
    Run(log, AttemptStep(svc, admin, m, force, nowMs), recipients)
  }

  ghost predicate DistinctIds(users: seq<UserModel.User>) {
    forall i, j :: 0 <= i < j < |users| ==> users[i].id != users[j].id
  }

  /** A step that writes the player's own row and is not moved by rows of other players. */
  ghost predicate PerPlayer(step: Step) {
    (forall l, p :: step(l, p).userId == p.id)
    && (forall l, r: MatchNudgeRow, p: UserModel.User :: r.userId != p.id ==> step(l + [r], p) == step(l, p))
  }

  lemma AttemptPerPlayer(svc: Services, admin: UserModel.User, m: Match, force: bool, nowMs: int)
    ensures PerPlayer(AttemptStep(svc, admin, m, force, nowMs))
  {
    var step := AttemptStep(svc, admin, m, force, nowMs);
    forall l: seq<MatchNudgeRow>, r: MatchNudgeRow, p: UserModel.User | r.userId != p.id
      ensures step(l + [r], p) == step(l, p)
    {
      CooldownIgnoresOthers(l, [r], m.id, p.id);
      AttemptReadsSentRows(l + [r], l, svc, admin, m, p, force, nowMs);
    }
  }

  /** For a per-player step and distinct players, the k-th appended row is
      what the k-th recipient gets from the log as it was before the loop. */
  lemma {:induction false} RunRows(log: seq<MatchNudgeRow>, step: Step, recipients: seq<UserModel.User>, k: nat)
    requires PerPlayer(step) && DistinctIds(recipients) && k < |recipients|
    ensures Run(log, step, recipients).log[|log| + k] == step(log, recipients[k])
    decreases |recipients|
  {
    var row := step(log, recipients[0]);
    var rs := recipients[1..];
    var rest := Run(log + [row], step, rs);
    assert Run(log, step, recipients).log == rest.log;
    if k == 0 {
      assert rest.log[..|log| + 1] == log + [row];
      assert rest.log[|log|] == (log + [row])[|log|];
    } else {
      assert DistinctIds(rs) by {
        forall i, j | 0 <= i < j < |rs| ensures rs[i].id != rs[j].id {
          assert rs[i] == recipients[i + 1] && rs[j] == recipients[j + 1];
        }
      }
      RunRows(log + [row], step, rs, k - 1);
      assert |log + [row]| + (k - 1) == |log| + k;
      assert rs[k - 1] == recipients[k];
      assert row.userId == recipients[0].id != recipients[k].id;
    }
  }

  /** For any step, the counters are the numbers of appended rows of each status. */
  lemma {:induction false} RunCounters(log: seq<MatchNudgeRow>, step: Step, recipients: seq<UserModel.User>)
    ensures var b := Run(log, step, recipients);
      var added := b.log[|log|..];
      b.sent == CountWhere(added, (r: MatchNudgeRow) => r.status == Sent)
      && b.skipped == CountWhere(added, (r: MatchNudgeRow) => r.status == Blocked)
      && b.failed == CountWhere(added, (r: MatchNudgeRow) => r.status == Failed)
    decreases |recipients|
  {
    var b := Run(log, step, recipients);
    if recipients != [] {
      var row := step(log, recipients[0]);
      var rest := Run(log + [row], step, recipients[1..]);
      RunCounters(log + [row], step, recipients[1..]);
      assert b.log[|log|..][0] == row;
      assert b.log[|log|..][1..] == rest.log[|log + [row]|..];
    }
  }

  /** With distinct players (ids are a primary key), the batch appends, in
      recipient order, exactly the row each recipient would get from the log
      as it was before the batch: the attempts do not influence each other. */
  lemma BatchRows(log: seq<MatchNudgeRow>, svc: Services, admin: UserModel.User, m: Match,
                  recipients: seq<UserModel.User>, force: bool, nowMs: int, k: nat)
    requires DistinctIds(recipients) && k < |recipients|
    ensures RunBatch(log, svc, admin, m, recipients, force, nowMs).log[|log| + k]
      == Attempt(log, svc, admin, m, recipients[k], force, nowMs)
  {
    AttemptPerPlayer(svc, admin, m, force, nowMs);
    RunRows(log, AttemptStep(svc, admin, m, force, nowMs), recipients, k);
  }

  /** The counters report the statuses of the appended rows. */
  lemma BatchCounters(log: seq<MatchNudgeRow>, svc: Services, admin: UserModel.User, m: Match,
                      recipients: seq<UserModel.User>, force: bool, nowMs: int)
    ensures var b := RunBatch(log, svc, admin, m, recipients, force, nowMs);
      var added := b.log[|log|..];
      b.sent == CountWhere(added, (r: MatchNudgeRow) => r.status == Sent)
      && b.skipped == CountWhere(added, (r: MatchNudgeRow) => r.status == Blocked)
      && b.failed == CountWhere(added, (r: MatchNudgeRow) => r.status == Failed)
  {
    RunCounters(log, AttemptStep(svc, admin, m, force, nowMs), recipients);
  }

  // ------------------------------------------------------------------ outcome

  /** The overall status of a batch from its three counters. */
  function OverallStatus(sent: nat, skipped: nat, failed: nat): (s: ResultStatus)
    ensures s == ResultFailed <==> sent == 0 && failed > 0
    ensures s == ResultBlocked <==> sent == 0 && failed == 0
    ensures s == ResultPartial <==> sent > 0 && (failed > 0 || skipped > 0)
    ensures s == ResultSent <==> sent > 0 && failed == 0 && skipped == 0
  {
    if sent == 0 && failed > 0 then ResultFailed
    else if sent == 0 then ResultBlocked
    else if failed > 0 || skipped > 0 then ResultPartial
    else ResultSent
  }

  /** The three summary sentences joined by a space. */
  function Summary(sent: nat, skipped: nat, failed: nat): string {
    Text.Join(["Sent " + Text.NatToString(sent) + " nudge" + (if sent == 1 then "" else "s") + ".",
               "Skipped " + Text.NatToString(skipped) + ".",
               "Failed " + Text.NatToString(failed) + "."], " ")
  }

  /** Regrouping the three joined sentences. */
  lemma SummaryPieces(n: string, plural: string, k: string, f: string)
    ensures ("Sent " + n + " nudge" + plural + ".") + " " + ("Skipped " + k + ".") + " " + ("Failed " + f + ".")
      == "Sent " + n + (" nudge" + plural + ".") + " Skipped " + k + ". Failed " + f + "."
  {
  }

  /** The summary reads "Sent N nudge(s). Skipped S. Failed F.", the noun singular exactly when N = 1. */
  lemma SummaryText(sent: nat, skipped: nat, failed: nat)
    ensures Summary(sent, skipped, failed) ==
      "Sent " + Text.NatToString(sent) + (if sent == 1 then " nudge." else " nudges.")
      + " Skipped " + Text.NatToString(skipped) + ". Failed " + Text.NatToString(failed) + "."
  {
    var n, k, f := Text.NatToString(sent), Text.NatToString(skipped), Text.NatToString(failed);
    var plural := if sent == 1 then "" else "s";
    Text.JoinThree("Sent " + n + " nudge" + plural + ".", "Skipped " + k + ".", "Failed " + f + ".", " ");
    SummaryPieces(n, plural, k, f);
    assert " nudge" + plural + "." == if sent == 1 then " nudge." else " nudges.";
  }

  const PAST_MATCH := NudgeOutcome(ResultBlocked, "Cannot send nudges for a past match.", 0, 0, 0, 0)
  const NO_RECIPIENTS := NudgeOutcome(ResultBlocked, "No eligible non-responders to nudge.", 0, 0, 0, 0)

  /** `sendNonResponderNudges` as a function of the log before the call: the new log and the outcome. */
  function Nudges(log: seq<MatchNudgeRow>, svc: Services, admin: UserModel.User, m: Match,
                  users: seq<UserModel.User>, avail: seq<(AvailabilityKey, string)>, force: bool, nowMs: int)
    : (r: (seq<MatchNudgeRow>, NudgeOutcome))
    ensures m.scheduledAtMs <= nowMs ==> r == (log, PAST_MATCH)
    ensures m.scheduledAtMs > nowMs && EligibleNonResponders(users, avail, m.id) == [] ==> r == (log, NO_RECIPIENTS)
    ensures var o := r.1; o.sentCount + o.skippedCount + o.failedCount == o.targetCount
    ensures |r.0| == |log| + r.1.targetCount && r.0[..|log|] == log
    ensures r.1.targetCount > 0 ==>
      (r.1.status == OverallStatus(r.1.sentCount, r.1.skippedCount, r.1.failedCount)
       && r.1.targetCount == |EligibleNonResponders(users, avail, m.id)|)
  {
    if m.scheduledAtMs <= nowMs then (log, PAST_MATCH)
    else
      var recipients := EligibleNonResponders(users, avail, m.id);
      if |recipients| == 0 then (log, NO_RECIPIENTS)
      else
        var b := RunBatch(log, svc, admin, m, recipients, force, nowMs);
        (b.log, NudgeOutcome(OverallStatus(b.sent, b.skipped, b.failed), Summary(b.sent, b.skipped, b.failed),
                             |recipients|, b.sent, b.skipped, b.failed))
  }

  /** Forcing a batch marks every appended row as forced; without force no row is. */
  lemma {:induction false} ForcedFlag(log: seq<MatchNudgeRow>, svc: Services, admin: UserModel.User, m: Match,
                                      recipients: seq<UserModel.User>, force: bool, nowMs: int, k: nat)
    requires DistinctIds(recipients) && k < |recipients|
    ensures var row := RunBatch(log, svc, admin, m, recipients, force, nowMs).log[|log| + k];
      row.forced == force || (!force && row.errorCode == Some("cooldown_active"))
  {
    BatchRows(log, svc, admin, m, recipients, force, nowMs, k);
    AttemptCases(log, svc, admin, m, recipients[k], force, nowMs);
  }

  /** After `i` loop iterations: running the rest of the recipients on the
      current log finishes the batch the loop started on `initial`. */
  ghost predicate Progress(initial: seq<MatchNudgeRow>, step: Step, recipients: seq<UserModel.User>, i: nat,
                           log: seq<MatchNudgeRow>, sent: nat, skipped: nat, failed: nat)
    requires i <= |recipients|
  {
    var rest := Run(log, step, recipients[i..]);
    var all := Run(initial, step, recipients);
    rest.log == all.log && sent + rest.sent == all.sent && skipped + rest.skipped == all.skipped
    && failed + rest.failed == all.failed
  }

  /** One iteration keeps the loop on course: append the step's row and add its tick. */
  lemma RunAdvance(initial: seq<MatchNudgeRow>, step: Step, recipients: seq<UserModel.User>, i: nat,
                   log: seq<MatchNudgeRow>, sent: nat, skipped: nat, failed: nat)
    requires i < |recipients| && Progress(initial, step, recipients, i, log, sent, skipped, failed)
    ensures var row := step(log, recipients[i]);
      Progress(initial, step, recipients, i + 1, log + [row], sent + Tick(row).0, skipped + Tick(row).1, failed + Tick(row).2)
  {
    assert recipients[i..][0] == recipients[i] && recipients[i..][1..] == recipients[i + 1..];
  }

  /** Before the loop the whole batch is ahead; after it nothing is. */
  lemma RunBounds(initial: seq<MatchNudgeRow>, step: Step, recipients: seq<UserModel.User>,
                  log: seq<MatchNudgeRow>, sent: nat, skipped: nat, failed: nat)
    ensures Progress(initial, step, recipients, 0, initial, 0, 0, 0)
    ensures Progress(initial, step, recipients, |recipients|, log, sent, skipped, failed)
      ==> Batch(log, sent, skipped, failed) == Run(initial, step, recipients)
  {
    assert recipients[0..] == recipients;
    assert recipients[|recipients|..] == [];
  }

  /** One iteration of the loop: the cooldown check, the DM and the audit row. */
  method NudgeOne(log: Table<MatchNudgeRow>, svc: Services, admin: UserModel.User, m: Match,
                  player: UserModel.User, force: bool, nowMs: int)
    returns (sent: nat, skipped: nat, failed: nat)
    modifies log
    ensures log.rows == old(log.rows) + [Attempt(old(log.rows), svc, admin, m, player, force, nowMs)]
    ensures (sent, skipped, failed) == Tick(Attempt(old(log.rows), svc, admin, m, player, force, nowMs))
  {
    sent, skipped, failed := 0, 0, 0;
    if !force && IsOnCooldown(log.rows, m.id, player.id, nowMs) {
      skipped := 1;
      log.Insert(MatchNudgeRow(m.id, player.id, admin.id, Blocked, false, Some("cooldown_active"),
                               Some(COOLDOWN_MESSAGE), None, nowMs));
      return;
    }
    var dm := svc.send(NudgeRequest(svc.codec, m, player, nowMs));
    if !dm.ok {
      var failure := DmFailure.Classify(dm.errorCode, dm.errorMessage);
      if failure.status == Blocked {
        skipped := 1;
      } else {
        failed := 1;
      }
      log.Insert(MatchNudgeRow(m.id, player.id, admin.id, failure.status, force, Some(failure.errorCode),
                               Some(dm.errorMessage.GetOr("Unknown Discord DM send failure")), None, nowMs));
      return;
    }
    sent := 1;
    log.Insert(MatchNudgeRow(m.id, player.id, admin.id, Sent, force, None, None, Some(nowMs), nowMs));
  }

  /** The loop of `sendNonResponderNudges` over the recipients, with its three counters. */
  method NudgeAll(log: Table<MatchNudgeRow>, svc: Services, admin: UserModel.User, m: Match,
                  recipients: seq<UserModel.User>, force: bool, nowMs: int)
    returns (sent: nat, skipped: nat, failed: nat)
    modifies log
    ensures Batch(log.rows, sent, skipped, failed) == RunBatch(old(log.rows), svc, admin, m, recipients, force, nowMs)
  {
    ghost var initial := log.rows;
    ghost var step := AttemptStep(svc, admin, m, force, nowMs);
    RunBounds(initial, step, recipients, initial, 0, 0, 0);
    sent, skipped, failed := 0, 0, 0;
    var i := 0;
    while i < |recipients|
      invariant 0 <= i <= |recipients|
      invariant Progress(initial, step, recipients, i, log.rows, sent, skipped, failed)
    {
      RunAdvance(initial, step, recipients, i, log.rows, sent, skipped, failed);
      var s, k, f := NudgeOne(log, svc, admin, m, recipients[i], force, nowMs);
      sent, skipped, failed := sent + s, skipped + k, failed + f;
      i := i + 1;
    }
    RunBounds(initial, step, recipients, log.rows, sent, skipped, failed);
  }

  /** `sendNonResponderNudges`: refuse a past match or an empty recipient list, otherwise nudge each recipient. */
  method SendNonResponderNudges(log: Table<MatchNudgeRow>, svc: Services, admin: UserModel.User, m: Match,
                                users: seq<UserModel.User>, avail: seq<(AvailabilityKey, string)>, force: bool, nowMs: int)
    returns (outcome: NudgeOutcome)
    modifies log
    ensures (log.rows, outcome) == Nudges(old(log.rows), svc, admin, m, users, avail, force, nowMs)
  {
    if m.scheduledAtMs <= nowMs {
      return PAST_MATCH;
    }
    var recipients := EligibleNonResponders(users, avail, m.id);
    if |recipients| == 0 {
      return NO_RECIPIENTS;
    }
    var sent, skipped, failed := NudgeAll(log, svc, admin, m, recipients, force, nowMs);
    outcome := NudgeOutcome(OverallStatus(sent, skipped, failed), Summary(sent, skipped, failed),
                            |recipients|, sent, skipped, failed);
  }
}

/** The player data nudge: an admin reminds one player to fill in weekly
    availability or agent preferences. Every call appends exactly one row to
    the `player_nudges` audit log, whichever check decides the outcome. */
module PlayerNudge {
  import opened Wrappers
  import opened Models
  import opened Tables
  import opened NudgeLog
  import DmFailure
  import DiscordDm
  import UserModel
  import Text

  const PROFILE_DATA_MISSING_REASON: string := "profile_data_missing"

  datatype MissingData = MissingData(missingAvailability: bool, missingAgents: bool)

  /** The outcome reported to the admin; `cooldownUntilMs` is set only for a cooldown. */
  datatype PlayerNudgeOutcome = PlayerNudgeOutcome(
    status: NudgeStatus,
    message: string,
    errorCode: Option<string>,
    missing: MissingData,
    cooldownUntilMs: Option<int>)

  /** The collaborators: the DM sender's configuration and transport, and
      `DateTime.toISO` for the audit message of a cooldown. */
  datatype Services = Services(cfg: DiscordDm.Config, respond: DiscordDm.Request -> DiscordDm.Outcome, toIso: int -> string)

  // ------------------------------------------------------------- missing data

  /** `getMissingData`: no weekly-availability row at all (whatever its flag), or no agent preference. */
  function GetMissingData(target: UserModel.User, slots: seq<(SlotKey, bool)>): (d: MissingData)
    ensures d.missingAvailability <==> forall i :: 0 <= i < |slots| ==> slots[i].0.userId != target.id
    ensures d.missingAgents <==> target.agentPrefs == []
  {
    CountOwnZero(slots, target.id);
    MissingData(CountWhere(slots, (r: (SlotKey, bool)) => r.0.userId == target.id) == 0, |target.agentPrefs| == 0)
  }

  lemma {:induction false} CountOwnZero(slots: seq<(SlotKey, bool)>, userId: int)
    ensures CountWhere(slots, (r: (SlotKey, bool)) => r.0.userId == userId) == 0
      <==> forall i :: 0 <= i < |slots| ==> slots[i].0.userId != userId
  {
    if slots != [] {
      CountOwnZero(slots[1..], userId);
      assert forall i :: 1 <= i < |slots| ==> slots[i] == slots[1..][i - 1];
    }
  }

  // ------------------------------------------------------------ remaining time

  /** `Math.max(1, Math.ceil(minutes between now and until))`, characterised as
      the least whole number of minutes, at least one, that covers the gap. */
  function RemainingMinutes(untilMs: int, nowMs: int): (m: nat)
    ensures m >= 1
    ensures untilMs - nowMs > 0 ==> (m - 1) * 60_000 < untilMs - nowMs <= m * 60_000
    ensures untilMs - nowMs <= 60_000 ==> m == 1
  {
    var ceil := -((nowMs - untilMs) / 60_000);
    if ceil < 1 then 1 else ceil
  }

  /** `formatRemaining`: the remaining minutes, split into hours and minutes.
      The rendering loses nothing: "Hh Mm", "Hh" and "Mm" read back as the
      remaining minutes. */
  function FormatRemaining(untilMs: int, nowMs: int): (r: string)
    ensures ParseRemaining(r) == Some(RemainingMinutes(untilMs, nowMs))
  {
    FormatMinutesRoundTrip(RemainingMinutes(untilMs, nowMs));
    FormatMinutes(RemainingMinutes(untilMs, nowMs))
  }

  /** "Hh Mm", "Hh" or "Mm" for a number of minutes. */
  function FormatMinutes(total: nat): string {
    var hours := total / 60;
    var minutes := total % 60;
    if hours > 0 && minutes > 0 then Text.NatToString(hours) + "h " + Text.NatToString(minutes) + "m"
    else if hours > 0 then Text.NatToString(hours) + "h"
    else Text.NatToString(minutes) + "m"
  }

  /** A number followed by one unit letter, as in "5h" or "30m". */
  function Unit(part: string, unit: char): Option<nat> {
    if |part| >= 2 && part[|part| - 1] == unit && Text.AllDigits(part[..|part| - 1])
    then Some(Text.ParseDigits(part[..|part| - 1]))
    else None
  }

  /** Reads "Hh Mm", "Hh" or "Mm" back as a number of minutes. */
  function ParseRemaining(s: string): Option<nat> {
    var parts := Text.Split(s, ' ');
    if |parts| == 2 then
      var h := Unit(parts[0], 'h');
      var m := Unit(parts[1], 'm');
      if h.Some? && m.Some? then Some(h.value * 60 + m.value) else None
    else if |parts| == 1 then
      var h := Unit(parts[0], 'h');
      var m := Unit(parts[0], 'm');
      if h.Some? then Some(h.value * 60) else if m.Some? then Some(m.value) else None
    else None
  }

  lemma UnitOf(n: nat, unit: char)
    requires !Text.IsDigit(unit) && unit != ' '
    ensures Unit(Text.NatToString(n) + [unit], unit) == Some(n)
    ensures ' ' !in Text.NatToString(n) + [unit]
  {
    var p := Text.NatToString(n) + [unit];
    assert p[..|p| - 1] == Text.NatToString(n);
    Text.ParseNatToString(n);
    assert p[|p| - 1] == unit;
    assert forall i :: 0 <= i < |p| ==> p[i] == unit || Text.IsDigit(p[i]);
  }

  lemma ParseTwoParts(hs: string, ms: string, h: nat, m: nat)
    requires ' ' !in hs && ' ' !in ms
    requires Unit(hs, 'h') == Some(h) && Unit(ms, 'm') == Some(m)
    ensures ParseRemaining(hs + [' '] + ms) == Some(h * 60 + m)
  {
    Text.SplitTwo(hs, ' ', ms);
    var parts := Text.Split(hs + [' '] + ms, ' ');
    assert parts[0] == hs && parts[1] == ms;
  }

  lemma ParseHoursMinutes(h: nat, m: nat)
    ensures ParseRemaining(Text.NatToString(h) + "h " + Text.NatToString(m) + "m") == Some(h * 60 + m)
  {
    var hs := Text.NatToString(h) + "h";
    var ms := Text.NatToString(m) + "m";
    UnitOf(h, 'h');
    UnitOf(m, 'm');
    assert "h" == ['h'] && "m" == ['m'];
    assert Text.NatToString(h) + "h " + Text.NatToString(m) + "m" == hs + [' '] + ms;
    ParseTwoParts(hs, ms, h, m);
  }

  lemma ParseSingle(n: nat, unit: char, other: char)
    requires (unit == 'h' && other == 'm') || (unit == 'm' && other == 'h')
    ensures Text.Split(Text.NatToString(n) + [unit], ' ') == [Text.NatToString(n) + [unit]]
    ensures Unit(Text.NatToString(n) + [unit], unit) == Some(n)
    ensures Unit(Text.NatToString(n) + [unit], other).None?
  {
    UnitOf(n, unit);
    var p := Text.NatToString(n) + [unit];
    assert p[|p| - 1] == unit;
  }

  /** Any number of minutes reads back from its rendering. */
  lemma FormatMinutesRoundTrip(total: nat)
    ensures ParseRemaining(FormatMinutes(total)) == Some(total)
  {
    var hours := total / 60;
    var minutes := total % 60;
    assert total == hours * 60 + minutes;
    if hours > 0 && minutes > 0 {
      ParseHoursMinutes(hours, minutes);
    } else if hours > 0 {
      ParseSingle(hours, 'h', 'm');
      assert "h" == ['h'];
      assert FormatMinutes(total) == Text.NatToString(hours) + ['h'];
    } else {
      ParseSingle(minutes, 'm', 'h');
      assert "m" == ['m'];
      assert FormatMinutes(total) == Text.NatToString(minutes) + ['m'];
    }
  }

  // ---------------------------------------------------------------- cooldown

  /** The two timestamps of a log row that the cooldown reads. */
  function StampOf(r: PlayerNudgeRow): Stamp {
    Stamp(r.sentAtMs, r.createdAtMs)
  }

  /** The rows the cooldown query reads: this player, reason profile_data_missing, status sent. */
  function SentRows(log: seq<PlayerNudgeRow>, userId: int): seq<PlayerNudgeRow> {
    Filter(log, (r: PlayerNudgeRow) => r.userId == userId && r.reason == PROFILE_DATA_MISSING_REASON && r.status == Sent)
  }

  /** `isOnCooldown` of the profile nudge: the window of the latest sent row, if it has not passed. */
  function CooldownEnd(log: seq<PlayerNudgeRow>, userId: int, nowMs: int): (r: Option<int>)
    ensures r.Some? <==> OnCooldown(StampsOf(SentRows(log, userId), StampOf), nowMs)
    ensures r.Some? ==> r == CooldownUntil(StampsOf(SentRows(log, userId), StampOf)) && r.value > nowMs
  {
    var until := CooldownUntil(StampsOf(SentRows(log, userId), StampOf));
    if until.Some? && until.value > nowMs then until else None
  }

  // ------------------------------------------------------------------ decision

  /** The audit row of one call. */
  function Row(target: UserModel.User, admin: UserModel.User, status: NudgeStatus, missing: MissingData,
               errorCode: Option<string>, errorMessage: Option<string>, sentAtMs: Option<int>, nowMs: int): PlayerNudgeRow
  {
    PlayerNudgeRow(target.id, admin.id, PROFILE_DATA_MISSING_REASON, status, missing.missingAvailability,
                   missing.missingAgents, errorCode, errorMessage, sentAtMs, nowMs)
  }

  /** The checks that refuse a nudge before any message is sent, in the order they run. */
  datatype Refusal = NotOnRoster | NotApproved | NoMissingData | NoDiscordId

  /** The error code a refusal records. */
  function RefusalCode(why: Refusal): string {
    match why
    case NotOnRoster => "target_not_on_roster"
    case NotApproved => "target_not_approved"
    case NoMissingData => "no_missing_data"
    case NoDiscordId => "missing_discord_id"
  }

  /** The error message of the audit row. */
  function RefusalAudit(why: Refusal): string {
    match why
    case NotOnRoster => "Target player is not on roster"
    case NotApproved => "Target player is not approved"
    case NoMissingData => "Target player has no missing profile data"
    case NoDiscordId => "Target player has no linked Discord account"
  }

  /** The message shown to the admin. */
  function RefusalMessage(why: Refusal): string {
    match why
    case NotOnRoster => "Cannot nudge: player is not on roster."
    case NotApproved => "Cannot nudge: player is not approved."
    case NoMissingData => "No nudge needed: player has already filled availability and agent preferences."
    case NoDiscordId => "Cannot nudge: player has no linked Discord account."
  }

  /** A check that blocks before any message is sent. */
  function Refuse(target: UserModel.User, admin: UserModel.User, missing: MissingData, why: Refusal, nowMs: int)
    : (PlayerNudgeRow, PlayerNudgeOutcome)
  {
    (Row(target, admin, Blocked, missing, Some(RefusalCode(why)), Some(RefusalAudit(why)), None, nowMs),
     PlayerNudgeOutcome(Blocked, RefusalMessage(why), Some(RefusalCode(why)), missing, None))
  }

  function DmInput(target: UserModel.User, missing: MissingData): DiscordDm.NudgeInput {
    DiscordDm.NudgeInput(target.discordId.GetOr(""), target.id,
                         target.fullName.GetOr(target.discordUsername.GetOr(target.email)),
                         missing.missingAvailability, missing.missingAgents)
  }

  /** The decision chain of `sendProfileDataNudge` once its inputs are known:
      the missing data, the end of a running cooldown, and the DM sender's
      result, which is consulted only when every check passes and no
      cooldown runs. */
  function Decide(target: UserModel.User, admin: UserModel.User, missing: MissingData, until: Option<int>,
                  dm: DiscordDm.DmResult, toIso: int -> string, nowMs: int): (PlayerNudgeRow, PlayerNudgeOutcome)
  {
    if !target.isOnRoster then Refuse(target, admin, missing, NotOnRoster, nowMs)
    else if !UserModel.IsApproved(target) then Refuse(target, admin, missing, NotApproved, nowMs)
    else if !missing.missingAvailability && !missing.missingAgents then Refuse(target, admin, missing, NoMissingData, nowMs)
    else if !Truthy(target.discordId) then Refuse(target, admin, missing, NoDiscordId, nowMs)
    else if until.Some? then
      (Row(target, admin, Blocked, missing, Some("cooldown_active"),
           Some("Cooldown active until " + toIso(until.value)), None, nowMs),
       PlayerNudgeOutcome(Blocked, "On cooldown (" + FormatRemaining(until.value, nowMs) + " left).",
                          Some("cooldown_active"), missing, until))
    else if !dm.ok then
      var failure := DmFailure.Classify(dm.errorCode, dm.errorMessage);
      (Row(target, admin, failure.status, missing, Some(failure.errorCode),
           Some(dm.errorMessage.GetOr("Unknown DM send failure")), None, nowMs),
       PlayerNudgeOutcome(failure.status, failure.message, Some(failure.errorCode), missing, None))
    else
      (Row(target, admin, Sent, missing, None, None, Some(nowMs), nowMs),
       PlayerNudgeOutcome(Sent, "Nudge sent just now.", None, missing, None))
  }

  /** `sendProfileDataNudge` as a function of the log: the appended row and the outcome. */
  function ProfileNudge(log: seq<PlayerNudgeRow>, svc: Services, admin: UserModel.User, target: UserModel.User,
                        slots: seq<(SlotKey, bool)>, nowMs: int): (PlayerNudgeRow, PlayerNudgeOutcome)
  {
    var missing := GetMissingData(target, slots);
    Decide(target, admin, missing, CooldownEnd(log, target.id, nowMs),
           DiscordDm.SendPlayerDataNudge(svc.cfg, DmInput(target, missing), svc.respond).result, svc.toIso, nowMs)
  }

  /** Whatever the inputs, the row records what the outcome reports. */
  lemma DecideAgrees(target: UserModel.User, admin: UserModel.User, missing: MissingData, until: Option<int>,
                     dm: DiscordDm.DmResult, toIso: int -> string, nowMs: int)
    requires until.Some? ==> until.value > nowMs
    ensures var (row, o) := Decide(target, admin, missing, until, dm, toIso, nowMs);
      row.userId == target.id && row.adminUserId == admin.id && row.reason == PROFILE_DATA_MISSING_REASON
      && row.status == o.status && row.errorCode == o.errorCode && row.createdAtMs == nowMs
      && o.missing == missing
      && row.missingAvailability == missing.missingAvailability && row.missingAgents == missing.missingAgents
      && (o.status == Sent <==> o.errorCode.None?)
      && (o.status == Sent <==> row.sentAtMs == Some(nowMs))
      && (o.status != Sent ==> row.sentAtMs.None?)
      && (o.cooldownUntilMs.Some? ==> o.errorCode == Some("cooldown_active") && o.cooldownUntilMs.value > nowMs)
  {
    if !dm.ok {
      var failure := DmFailure.Classify(dm.errorCode, dm.errorMessage);
      assert failure.status != Sent;
    }
  }

  /** The refusal codes, written out. */
  lemma RefusalCodes()
    ensures RefusalCode(NotOnRoster) == "target_not_on_roster" && RefusalCode(NotApproved) == "target_not_approved"
    ensures RefusalCode(NoMissingData) == "no_missing_data" && RefusalCode(NoDiscordId) == "missing_discord_id"
  {
  }

  /** The first failing check decides the code of `Decide`; past the checks a
      running cooldown, and only a running cooldown, gives 'cooldown_active'
      as long as the DM sender never reports that code itself. */
  lemma DecideOrder(target: UserModel.User, admin: UserModel.User, missing: MissingData, until: Option<int>,
                    dm: DiscordDm.DmResult, toIso: int -> string, nowMs: int)
    requires dm.errorCode != Some("cooldown_active")
    ensures var o := Decide(target, admin, missing, until, dm, toIso, nowMs).1;
      (!target.isOnRoster ==> o.errorCode == Some(RefusalCode(NotOnRoster)))
      && (target.isOnRoster && !UserModel.IsApproved(target) ==> o.errorCode == Some(RefusalCode(NotApproved)))
      && (target.isOnRoster && UserModel.IsApproved(target) && !missing.missingAvailability && !missing.missingAgents
          ==> o.errorCode == Some(RefusalCode(NoMissingData)))
      && ((target.isOnRoster && UserModel.IsApproved(target) && (missing.missingAvailability || missing.missingAgents)
           && !Truthy(target.discordId)) ==> o.errorCode == Some(RefusalCode(NoDiscordId)))
      && ((target.isOnRoster && UserModel.IsApproved(target) && (missing.missingAvailability || missing.missingAgents)
           && Truthy(target.discordId)) ==> (until.Some? <==> o.errorCode == Some("cooldown_active")))
  {
    if !dm.ok {
      var failure := DmFailure.Classify(dm.errorCode, dm.errorMessage);
      assert failure.errorCode != "cooldown_active";
    }
  }

  /** The checks run in order and the first failing one decides the code: not
      on roster, not approved, nothing missing, no Discord id, cooldown; only
      then is the DM sent, and its result decides. */
  lemma CheckOrder(log: seq<PlayerNudgeRow>, svc: Services, admin: UserModel.User, target: UserModel.User,
                   slots: seq<(SlotKey, bool)>, nowMs: int)
    ensures var o := ProfileNudge(log, svc, admin, target, slots, nowMs).1;
      var missing := GetMissingData(target, slots);
      (!target.isOnRoster ==> o.errorCode == Some("target_not_on_roster"))
      && (target.isOnRoster && !UserModel.IsApproved(target) ==> o.errorCode == Some("target_not_approved"))
      && (target.isOnRoster && UserModel.IsApproved(target) && !missing.missingAvailability && !missing.missingAgents
          ==> o.errorCode == Some("no_missing_data"))
      && ((target.isOnRoster && UserModel.IsApproved(target) && (missing.missingAvailability || missing.missingAgents)
           && !Truthy(target.discordId)) ==> o.errorCode == Some("missing_discord_id"))
      && ((target.isOnRoster && UserModel.IsApproved(target) && (missing.missingAvailability || missing.missingAgents)
           && Truthy(target.discordId)) ==>
            (OnCooldown(StampsOf(SentRows(log, target.id), StampOf), nowMs) <==> o.errorCode == Some("cooldown_active")))
  {
    var missing := GetMissingData(target, slots);
    var until := CooldownEnd(log, target.id, nowMs);
    var input := DmInput(target, missing);
    CooldownCodeNotFromDm(svc.cfg, input, svc.respond);
    DecideOrder(target, admin, missing, until, DiscordDm.SendPlayerDataNudge(svc.cfg, input, svc.respond).result, svc.toIso, nowMs);
    RefusalCodes();
  }

  /** The appended row records what the outcome reports: the same status and
      code, the missing-data flags of the target, the profile reason, and a
      `sentAt` of now exactly when the nudge was sent. */
  lemma RowMatchesOutcome(log: seq<PlayerNudgeRow>, svc: Services, admin: UserModel.User, target: UserModel.User,
                          slots: seq<(SlotKey, bool)>, nowMs: int)
    ensures var (row, o) := ProfileNudge(log, svc, admin, target, slots, nowMs);
      row.userId == target.id && row.adminUserId == admin.id && row.reason == PROFILE_DATA_MISSING_REASON
      && row.status == o.status && row.errorCode == o.errorCode && row.createdAtMs == nowMs
      && o.missing == GetMissingData(target, slots)
      && row.missingAvailability == o.missing.missingAvailability && row.missingAgents == o.missing.missingAgents
      && (o.status == Sent <==> o.errorCode.None?)
      && (o.status == Sent <==> row.sentAtMs == Some(nowMs))
      && (o.status != Sent ==> row.sentAtMs.None?)
      && (o.cooldownUntilMs.Some? ==> o.errorCode == Some("cooldown_active") && o.cooldownUntilMs.value > nowMs)
  {
    var missing := GetMissingData(target, slots);
    DecideAgrees(target, admin, missing, CooldownEnd(log, target.id, nowMs),
                 DiscordDm.SendPlayerDataNudge(svc.cfg, DmInput(target, missing), svc.respond).result, svc.toIso, nowMs);
  }

  /** Once the checks pass and no cooldown applies, the DM result decides: a
      failure is classified (blocked or failed, with its code), a success is
      "Nudge sent just now.". */
  lemma DmDecides(log: seq<PlayerNudgeRow>, svc: Services, admin: UserModel.User, target: UserModel.User,
                  slots: seq<(SlotKey, bool)>, nowMs: int)
    requires target.isOnRoster && UserModel.IsApproved(target) && Truthy(target.discordId)
    requires var missing := GetMissingData(target, slots); missing.missingAvailability || missing.missingAgents
    requires !OnCooldown(StampsOf(SentRows(log, target.id), StampOf), nowMs)
    ensures var o := ProfileNudge(log, svc, admin, target, slots, nowMs).1;
      var dm := DiscordDm.SendPlayerDataNudge(svc.cfg, DmInput(target, GetMissingData(target, slots)), svc.respond).result;
      var failure := DmFailure.Classify(dm.errorCode, dm.errorMessage);
      (dm.ok ==> o.status == Sent && o.message == "Nudge sent just now.")
      && (!dm.ok ==> o.status == failure.status && o.errorCode == Some(failure.errorCode) && o.message == failure.message)
  {
  }

  /** A successful nudge starts a cooldown: a second call on the log that
      holds its row, less than 24 hours later and with nothing else changed,
      is blocked with 'cooldown_active'. */
  lemma SentThenCooldown(log: seq<PlayerNudgeRow>, svc: Services, svc2: Services, admin: UserModel.User,
                         target: UserModel.User, slots: seq<(SlotKey, bool)>, nowMs: int, laterMs: int)
    requires ProfileNudge(log, svc, admin, target, slots, nowMs).1.status == Sent
    requires nowMs <= laterMs < nowMs + COOLDOWN_MS
    ensures var log2 := log + [ProfileNudge(log, svc, admin, target, slots, nowMs).0];
      ProfileNudge(log2, svc2, admin, target, slots, laterMs).1.errorCode == Some("cooldown_active")
  {
    var row := ProfileNudge(log, svc, admin, target, slots, nowMs).0;
    RowMatchesOutcome(log, svc, admin, target, slots, nowMs);
    CheckOrder(log, svc, admin, target, slots, nowMs);
    var log2 := log + [row];
    var keep := (r: PlayerNudgeRow) => r.userId == target.id && r.reason == PROFILE_DATA_MISSING_REASON && r.status == Sent;
    FilterAppend(log, [row], keep);
    assert Filter([row], keep) == [row];
    var rows := SentRows(log2, target.id);
    assert rows == SentRows(log, target.id) + [row];
    var stamps := StampsOf(rows, StampOf);
    var last := |stamps| - 1;
    assert stamps[last] == Stamp(Some(nowMs), nowMs);
    var j := Latest(stamps).value;
    assert SortsFirst(stamps[j].sentAtMs, stamps[last].sentAtMs);
    assert CooldownUntil(stamps).value >= nowMs + COOLDOWN_MS;
    CheckOrder(log2, svc2, admin, target, slots, laterMs);
  }

  lemma HttpCodeEndsInDigit(prefix: string, status: nat)
    ensures var code := DiscordDm.HttpErrorCode(prefix, status); code != [] && Text.IsDigit(code[|code| - 1])
  {
    var d := Text.NatToString(status);
    var code := DiscordDm.HttpErrorCode(prefix, status);
    assert code == prefix + d;
    assert code[|code| - 1] == d[|d| - 1];
  }

  /** An error code of the DM sender ends in a letter only when it is one of
      the fixed codes, so it is never 'cooldown_active'. */
  lemma KnownNotCooldown(code: string)
    requires DiscordDm.KnownErrorCode(code)
    ensures code != "cooldown_active"
  {
    if exists s: nat :: code == DiscordDm.HttpErrorCode("discord_dm_channel_http_", s) {
      var s: nat :| code == DiscordDm.HttpErrorCode("discord_dm_channel_http_", s);
      HttpCodeEndsInDigit("discord_dm_channel_http_", s);
    }
    if exists s: nat :: code == DiscordDm.HttpErrorCode("discord_dm_message_http_", s) {
      var s: nat :| code == DiscordDm.HttpErrorCode("discord_dm_message_http_", s);
      HttpCodeEndsInDigit("discord_dm_message_http_", s);
    }
  }

  lemma CooldownCodeNotFromDm(cfg: DiscordDm.Config, input: DiscordDm.NudgeInput, respond: DiscordDm.Request -> DiscordDm.Outcome)
    ensures DiscordDm.SendPlayerDataNudge(cfg, input, respond).result.errorCode != Some("cooldown_active")
  {
    var r := DiscordDm.SendPlayerDataNudge(cfg, input, respond).result;
    DiscordDm.ErrorCodesKnown(cfg, input, respond);
    if r.errorCode.Some? {
      KnownNotCooldown(r.errorCode.value);
    }
  }

  /** `sendProfileDataNudge`: the early-return chain, each branch recording its one attempt. */
  method SendProfileDataNudge(log: Table<PlayerNudgeRow>, svc: Services, admin: UserModel.User, target: UserModel.User,
                              slots: seq<(SlotKey, bool)>, nowMs: int)
    returns (outcome: PlayerNudgeOutcome)
    modifies log
    ensures var (row, o) := ProfileNudge(old(log.rows), svc, admin, target, slots, nowMs);
      log.rows == old(log.rows) + [row] && outcome == o
  {
    var missing := GetMissingData(target, slots);
    var why: Option<Refusal> := None;
    if !target.isOnRoster {
      why := Some(NotOnRoster);
    } else if !UserModel.IsApproved(target) {
      why := Some(NotApproved);
    } else if !missing.missingAvailability && !missing.missingAgents {
      why := Some(NoMissingData);
    } else if !Truthy(target.discordId) {
      why := Some(NoDiscordId);
    }
    if why.Some? {
      var (row, o) := Refuse(target, admin, missing, why.value, nowMs);
      log.Insert(row);
      return o;
    }
    var until := CooldownUntil(StampsOf(SentRows(log.rows, target.id), StampOf));
    if until.Some? && until.value > nowMs {
      var remaining := FormatRemaining(until.value, nowMs);
      log.Insert(Row(target, admin, Blocked, missing, Some("cooldown_active"), Some("Cooldown active until " + svc.toIso(until.value)), None, nowMs));
      return PlayerNudgeOutcome(Blocked, "On cooldown (" + remaining + " left).", Some("cooldown_active"), missing, until);
    }
    var dm := DiscordDm.SendPlayerDataNudge(svc.cfg, DmInput(target, missing), svc.respond).result;
    if !dm.ok {
      var failure := DmFailure.Classify(dm.errorCode, dm.errorMessage);
      log.Insert(Row(target, admin, failure.status, missing, Some(failure.errorCode),
                     Some(dm.errorMessage.GetOr("Unknown DM send failure")), None, nowMs));
      return PlayerNudgeOutcome(failure.status, failure.message, Some(failure.errorCode), missing, None);
    }
    log.Insert(Row(target, admin, Sent, missing, None, None, Some(nowMs), nowMs));
    return PlayerNudgeOutcome(Sent, "Nudge sent just now.", None, missing, None);
  }
}

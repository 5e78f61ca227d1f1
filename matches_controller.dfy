/** The match pages: the upcoming/past split of the list, the roster
    availability check for a proposed time, the result buttons, and the two
    steps of the Valorant fetch that list the players and save a picked
    match's score and agents. */
module MatchesController {
  import opened Wrappers
  import opened Models
  import opened Tables
  import Text
  import Timezone
  import UserModel
  import ValorantApi
  import MatchStatsSync

  // ------------------------------------------------------------------ index

  /** The test of `upcomingMatches`: in the future and without a result. */
  function UpcomingTest(nowMs: int): Match -> bool {
    (m: Match) => m.scheduledAtMs > nowMs && !Truthy(m.result)
  }

  /** The test of `pastMatches`: not in the future, or with a result. */
  function PastTest(nowMs: int): Match -> bool {
    (m: Match) => m.scheduledAtMs <= nowMs || Truthy(m.result)
  }

  /** `index`'s two lists, each in the order of the query (by schedule). */
  function Index(matches: seq<Match>, nowMs: int): (lists: (seq<Match>, seq<Match>)) {
    (Filter(matches, UpcomingTest(nowMs)), Filter(matches, PastTest(nowMs)))
  }

  /** Every match is listed exactly once: in one list and not the other. */
  lemma IndexPartition(matches: seq<Match>, nowMs: int, m: Match)
    requires m in matches
    ensures m in Index(matches, nowMs).0 <==> m !in Index(matches, nowMs).1
    ensures m in Index(matches, nowMs).0 <==> m.scheduledAtMs > nowMs && !Truthy(m.result)
  {
    FilterMembers(matches, UpcomingTest(nowMs), m);
    FilterMembers(matches, PastTest(nowMs), m);
  }

  /** The two lists together are as long as the query result. */
  lemma {:induction false} IndexSizes(matches: seq<Match>, nowMs: int)
    ensures |Index(matches, nowMs).0| + |Index(matches, nowMs).1| == |matches|
  {
    if matches != [] {
      IndexSizes(matches[1..], nowMs);
    }
  }

  // ------------------------------------------------------------------ checkAvailability

  /** The UTC weekday (0 = Sunday) and hour of the proposed time, or None when
      the input is missing or does not give a valid date in the user's zone.
      `parse` reads `yyyy-MM-dd HH:mm` as an ISO weekday and an hour of the
      local wall clock. */
  function UtcSlot(datetimeParam: Option<string>, tz: Timezone.Zone, parse: string -> Option<Timezone.DayHour>)
    : (r: Option<Timezone.DayHour>)
    ensures r.Some? ==> Timezone.InWeek(r.value)
    ensures !Truthy(datetimeParam) || tz.Unknown? ==> r.None?
    ensures r.Some? <==>
      (Truthy(datetimeParam) && parse(datetimeParam.value).Some?
       && Timezone.ToUtc(parse(datetimeParam.value).value.dayOfWeek, parse(datetimeParam.value).value.hour, tz).Some?)
  {
    if !Truthy(datetimeParam) then None
    else
      var local := parse(datetimeParam.value);
      if local.None? then None else Timezone.ToUtc(local.value.dayOfWeek, local.value.hour, tz)
  }

  /** The rows of one UTC slot, as the `weekly_availabilities` query selects them. */
  function AtSlot(slot: Timezone.DayHour): ((SlotKey, bool)) -> bool {
    (r: (SlotKey, bool)) => r.0.dayOfWeek == slot.dayOfWeek && r.0.hour == slot.hour
  }

  /** `availabilityByUserId` after the loop over `avs`: a later row of the same user overwrites. */
  function ByUser(avs: seq<(SlotKey, bool)>): map<int, bool>
    decreases |avs|
  {
    if avs == [] then map[]
    else ByUser(avs[..|avs| - 1])[avs[|avs| - 1].0.userId := avs[|avs| - 1].1]
  }

  /** A user has an entry exactly when one of the rows is theirs, and the entry is one of their rows' flags. */
  lemma {:induction false} ByUserEntry(avs: seq<(SlotKey, bool)>, uid: int)
    ensures uid in ByUser(avs) <==> exists i :: 0 <= i < |avs| && avs[i].0.userId == uid
    ensures uid in ByUser(avs) ==> exists i :: 0 <= i < |avs| && avs[i].0.userId == uid && ByUser(avs)[uid] == avs[i].1
    decreases |avs|
  {
    if avs != [] {
      var init := avs[..|avs| - 1];
      ByUserEntry(init, uid);
      if avs[|avs| - 1].0.userId != uid {
        if uid in ByUser(init) {
          var i :| 0 <= i < |init| && init[i].0.userId == uid && ByUser(init)[uid] == init[i].1;
          assert avs[i] == init[i];
        }
        if exists i :: 0 <= i < |avs| && avs[i].0.userId == uid {
          var i :| 0 <= i < |avs| && avs[i].0.userId == uid;
          assert init[i] == avs[i];
        }
      }
    }
  }

  /** `!!availabilityByUserId[id]`: a user without an entry counts as unavailable. */
  predicate IsAvailable(byUser: map<int, bool>, uid: int) {
    uid in byUser && byUser[uid]
  }

  /** The roster the check reports on: on the roster and approved. */
  function Roster(users: seq<UserModel.User>): seq<UserModel.User> {
    Filter(users, (u: UserModel.User) => u.isOnRoster && UserModel.IsApproved(u))
  }

  datatype PlayerAvailability = PlayerAvailability(
    id: int, fullName: Option<string>, discordUsername: Option<string>, email: string, isAvailable: bool)

  function Available(): PlayerAvailability -> bool {
    (p: PlayerAvailability) => p.isAvailable
  }

  /** What the partial is rendered with: no date, or the roster with each player's flag and the counts. */
  datatype AvailabilityCheck =
    | NoDatetime
    | Checked(datetime: string, players: seq<PlayerAvailability>, availableCount: nat, totalCount: nat)

  /** The `availabilityByUserId` loop over the rows of the slot. */
  method BuildByUser(avs: seq<(SlotKey, bool)>) returns (byUser: map<int, bool>)
    ensures byUser == ByUser(avs)
  {
    byUser := map[];
    var i := 0;
    while i < |avs|
      invariant 0 <= i <= |avs|
      invariant byUser == ByUser(avs[..i])
    {
      assert avs[..i + 1][..i] == avs[..i];
      byUser := byUser[avs[i].0.userId := avs[i].1];
      i := i + 1;
    }
    assert avs[..i] == avs;
  }

  /** `checkAvailability` for `user`, over the users and the weekly slot rows. */
  method CheckAvailability(user: UserModel.User, datetimeParam: Option<string>, parse: string -> Option<Timezone.DayHour>,
                           users: seq<UserModel.User>, slotRows: seq<(SlotKey, bool)>)
    returns (view: AvailabilityCheck)
    ensures view.NoDatetime? <==> UtcSlot(datetimeParam, user.timezone, parse).None?
    ensures view.Checked? ==>
      var slot := UtcSlot(datetimeParam, user.timezone, parse).value;
      var roster := Roster(users);
      var byUser := ByUser(Filter(slotRows, AtSlot(slot)));
      view.datetime == datetimeParam.value
      && |view.players| == view.totalCount == |roster|
      && (forall i :: 0 <= i < |roster| ==>
            view.players[i].id == roster[i].id && view.players[i].fullName == roster[i].fullName
            && view.players[i].email == roster[i].email && view.players[i].discordUsername == roster[i].discordUsername
            && (view.players[i].isAvailable <==> IsAvailable(byUser, roster[i].id)))
      && view.availableCount == |Filter(view.players, Available())| <= view.totalCount
  {
    var slot := UtcSlot(datetimeParam, user.timezone, parse);
    if slot.None? {
      return NoDatetime;
    }
    var roster := Roster(users);
    var avs := Filter(slotRows, AtSlot(slot.value));
    var byUser := BuildByUser(avs);
    var players := seq(|roster|, i requires 0 <= i < |roster| =>
      PlayerAvailability(roster[i].id, roster[i].fullName, roster[i].discordUsername, roster[i].email,
                         IsAvailable(byUser, roster[i].id)));
    view := Checked(datetimeParam.value, players, |Filter(players, Available())|, |players|);
  }

  /** Since a user has at most one row per slot, a roster player is shown
      available exactly when their row for the UTC slot says so; a player
      without a row is unavailable. */
  lemma AvailableIffSlotRow(slotRows: seq<(SlotKey, bool)>, slot: Timezone.DayHour, uid: int)
    requires UniqueKeys(slotRows)
    ensures IsAvailable(ByUser(Filter(slotRows, AtSlot(slot))), uid)
      <==> Lookup(slotRows, SlotKey(uid, slot.dayOfWeek, slot.hour)) == Some(true)
  {
    var avs := Filter(slotRows, AtSlot(slot));
    var k := SlotKey(uid, slot.dayOfWeek, slot.hour);
    ByUserEntry(avs, uid);
    LookupUnique(slotRows, k, true);
    if IsAvailable(ByUser(avs), uid) {
      var i :| 0 <= i < |avs| && avs[i].0.userId == uid && ByUser(avs)[uid] == avs[i].1;
      FilterMembers(slotRows, AtSlot(slot), avs[i]);
      assert avs[i] == (k, true);
    }
    if Lookup(slotRows, k) == Some(true) {
      FilterMembers(slotRows, AtSlot(slot), (k, true));
      var j :| 0 <= j < |avs| && avs[j] == (k, true);
      assert avs[j].0.userId == uid;
      var i :| 0 <= i < |avs| && avs[i].0.userId == uid && ByUser(avs)[uid] == avs[i].1;
      FilterMembers(slotRows, AtSlot(slot), avs[i]);
      assert avs[i].0 == k;
      LookupUnique(slotRows, k, avs[i].1);
    }
  }

  // ------------------------------------------------------------------ updateResult

  const WIN_HTML := "<span class=\"px-3 py-1 bg-green-900/50 text-green-400 rounded font-bold\">WIN</span>"
  const LOSS_HTML := "<span class=\"px-3 py-1 bg-red-900/50 text-red-400 rounded font-bold\">LOSS</span>"
  const DRAW_HTML := "<span class=\"px-3 py-1 bg-yellow-900/50 text-yellow-400 rounded font-bold\">DRAW</span>"
  const PENDING_HTML := "<span class=\"text-valorant-light/50\">Pending</span>"

  /** The badge returned to an htmx request: one per outcome, "Pending" for anything else. */
  function ResultHtml(result: Option<string>): (html: string)
    ensures html == WIN_HTML <==> result == Some("win")
    ensures html == LOSS_HTML <==> result == Some("loss")
    ensures html == DRAW_HTML <==> result == Some("draw")
    ensures html == PENDING_HTML <==> result !in {Some("win"), Some("loss"), Some("draw")}
  {
    if result == Some("win") then WIN_HTML
    else if result == Some("loss") then LOSS_HTML
    else if result == Some("draw") then DRAW_HTML
    else PENDING_HTML
  }

  function HasMatchId(id: int): Match -> bool {
    (m: Match) => m.id == id
  }

  datatype ResultResponse = ResultNotFound | ResultFragment(html: string) | ResultRedirect(path: string)

  /** `updateResult`: store the submitted result (empty clears it) on the match with that id. */
  method UpdateResult(matches: Table<Match>, id: int, result: Option<string>, htmx: bool) returns (response: ResultResponse)
    modifies matches
    ensures FirstIndex(old(matches.rows), HasMatchId(id)).None? ==>
      response == ResultNotFound && matches.rows == old(matches.rows)
    ensures FirstIndex(old(matches.rows), HasMatchId(id)).Some? ==>
      var i := FirstIndex(old(matches.rows), HasMatchId(id)).value;
      matches.rows == old(matches.rows)[i := old(matches.rows)[i].(result := OrNull(result))]
      && response == (if htmx then ResultFragment(ResultHtml(result)) else ResultRedirect("/matches"))
  {
    var i := FirstIndex(matches.rows, HasMatchId(id));
    if i.None? {
      return ResultNotFound;
    }
    matches.rows := matches.rows[i.value := matches.rows[i.value].(result := OrNull(result))];
    response := if htmx then ResultFragment(ResultHtml(result)) else ResultRedirect("/matches");
  }

  /** A result other than win, loss or draw is stored and moves the match to
      the past list, while its badge reads "Pending". */
  lemma UnknownResultIsPast(m: Match, result: string, nowMs: int)
    requires result != "" && result !in {"win", "loss", "draw"}
    ensures !UpcomingTest(nowMs)(m.(result := OrNull(Some(result))))
    ensures PastTest(nowMs)(m.(result := OrNull(Some(result))))
    ensures ResultHtml(Some(result)) == PENDING_HTML
  {
  }

  // ------------------------------------------------------------------ Valorant fetch

  /** Step 1's player list: roster, approved, with a tracker name that parses as a Riot ID. */
  function Step1Players(users: seq<UserModel.User>): (r: seq<UserModel.User>)
    ensures forall u :: u in r <==>
      (u in users && u.isOnRoster && UserModel.IsApproved(u) && u.trackerggUsername.Some?
       && Text.Count(u.trackerggUsername.value, '#') == 1)
  {
    var keep := (u: UserModel.User) => u.isOnRoster && UserModel.IsApproved(u) && u.trackerggUsername.Some?
                                       && ValorantApi.ParseRiotId(ValorantApi.OrEmpty(u.trackerggUsername)).Some?;
    var r := Filter(users, keep);
    forall u ensures u in r <==> u in users && keep(u) {
      FilterMembers(users, keep, u);
    }
    r
  }

  /** Every listed player has a Riot-ID key, so step 2 can look their matches up. */
  lemma Step1PlayersKnown(users: seq<UserModel.User>, u: UserModel.User)
    requires u in Step1Players(users)
    ensures MatchStatsSync.SyncedPlayersOrder.KnownKey(u).Some?
  {
  }

  /** The body of a score form, before validation. */
  datatype ScoreInput = ScoreInput(scoreUs: Option<int>, scoreThem: Option<int>, result: Option<string>, matchId: Option<string>)

  /** A validated score form. */
  datatype ScorePayload = ScorePayload(scoreUs: nat, scoreThem: nat, result: string, matchId: string)

  const RESULTS: set<string> := {"win", "loss", "draw"}

  /** The rules of `valorantScoreValidator`: two scores of at least 0, a
      result of the three, and a match id that is not blank (stored trimmed). */
  function ValidateScore(input: ScoreInput): (r: Option<ScorePayload>)
    ensures r.Some? <==>
      (input.scoreUs.Some? && input.scoreUs.value >= 0 && input.scoreThem.Some? && input.scoreThem.value >= 0
       && input.result.Some? && input.result.value in RESULTS
       && input.matchId.Some? && Text.Trim(input.matchId.value) != "")
    ensures r.Some? ==>
      r.value == ScorePayload(input.scoreUs.value, input.scoreThem.value, input.result.value, Text.Trim(input.matchId.value))
  {
    if input.scoreUs.None? || input.scoreUs.value < 0 || input.scoreThem.None? || input.scoreThem.value < 0 then None
    else if input.result.None? || input.result.value !in RESULTS then None
    else if input.matchId.None? || Text.Trim(input.matchId.value) == "" then None
    else Some(ScorePayload(input.scoreUs.value, input.scoreThem.value, input.result.value, Text.Trim(input.matchId.value)))
  }

  /** The error text of a rejected form: the first message of the validator, else a fixed text. */
  function ValidationMessage(messages: seq<Option<string>>): (text: string)
    ensures |messages| > 0 && Truthy(messages[0]) ==> text == messages[0].value
    ensures !(|messages| > 0 && Truthy(messages[0])) ==> text == "Invalid score data."
  {
    if |messages| > 0 && Truthy(messages[0]) then messages[0].value else "Invalid score data."
  }

  /** The agent row of one entry: only for an entry whose Riot ID maps to a
      user (id not 0) and that names an agent. */
  function SaveRecord(matchId: int, ids: map<string, int>, e: ValorantApi.MatchAgentEntry): (r: Option<MatchPlayerAgentRow>)
    ensures r.Some? <==> e.riotId in ids && ids[e.riotId] != 0 && e.agentKey != ""
    ensures r.Some? ==> r.value == MatchPlayerAgentRow(matchId, ids[e.riotId], e.agentKey, e.kills, e.deaths, e.assists)
  {
    if e.riotId !in ids || ids[e.riotId] == 0 then None
    else if e.agentKey == "" then None
    else Some(MatchPlayerAgentRow(matchId, ids[e.riotId], e.agentKey, e.kills, e.deaths, e.assists))
  }

  /** The `records` of `fetchFromValorantSave`, in the order of the entries. */
  function SaveRecords(matchId: int, ids: map<string, int>, entries: seq<ValorantApi.MatchAgentEntry>)
    : (r: seq<MatchPlayerAgentRow>)
    ensures |r| <= |entries|
    ensures forall row :: row in r <==> exists e :: e in entries && SaveRecord(matchId, ids, e) == Some(row)
  {
    var f := (e: ValorantApi.MatchAgentEntry) => SaveRecord(matchId, ids, e);
    forall row ensures row in FilterMap(entries, f) <==> exists e :: e in entries && f(e) == Some(row) {
      FilterMapMembers(entries, f, row);
    }
    FilterMap(entries, f)
  }

  /** Every saved row belongs to the match and to a user the Riot-ID map names. */
  lemma SaveRecordsOfMatch(matchId: int, ids: map<string, int>, entries: seq<ValorantApi.MatchAgentEntry>,
                           row: MatchPlayerAgentRow)
    requires row in SaveRecords(matchId, ids, entries)
    ensures row.matchId == matchId && row.userId in ids.Values && row.userId != 0
  {
    var e :| e in entries && SaveRecord(matchId, ids, e) == Some(row);
    assert ids[e.riotId] == row.userId;
  }

  datatype SaveResponse = SaveNotFound | SaveInvalid(status: int, error: string) | Saved(trigger: string)

  /** `fetchFromValorantSave`. `messages` are the validator's messages when it
      rejects the form; `agentsOf` is `getMatchAgents`. The score is saved
      before the agents are asked for, so an agent failure keeps it. */
  method FetchFromValorantSave(matches: Table<Match>, agentRows: Table<MatchPlayerAgentRow>, id: int, input: ScoreInput,
                               messages: seq<Option<string>>,
                               agentsOf: string -> Result<seq<ValorantApi.MatchAgentEntry>, ValorantApi.ApiError>,
                               users: seq<UserModel.User>)
    returns (response: SaveResponse)
    modifies matches, agentRows
    ensures FirstIndex(old(matches.rows), HasMatchId(id)).None? ==>
      response == SaveNotFound && matches.rows == old(matches.rows) && agentRows.rows == old(agentRows.rows)
    ensures FirstIndex(old(matches.rows), HasMatchId(id)).Some? && ValidateScore(input).None? ==>
      response == SaveInvalid(422, ValidationMessage(messages))
      && matches.rows == old(matches.rows) && agentRows.rows == old(agentRows.rows)
    ensures FirstIndex(old(matches.rows), HasMatchId(id)).Some? && ValidateScore(input).Some? ==>
      var i := FirstIndex(old(matches.rows), HasMatchId(id)).value;
      var m := old(matches.rows)[i];
      var p := ValidateScore(input).value;
      response == Saved("valorantScoreSaved")
      && matches.rows == old(matches.rows)[i := m.(scoreUs := Some(p.scoreUs), scoreThem := Some(p.scoreThem),
                                                   result := Some(p.result))]
      && (agentsOf(p.matchId).Err? ==> agentRows.rows == old(agentRows.rows))
      && (agentsOf(p.matchId).Ok? ==>
            agentRows.rows == Filter(old(agentRows.rows), Not(MatchStatsSync.OfMatch(m.id, MatchStatsSync.AgentMatchId)))
                              + SaveRecords(m.id, MatchStatsSync.RiotIdMap(users), agentsOf(p.matchId).value))
  {
    var i := FirstIndex(matches.rows, HasMatchId(id));
    if i.None? {
      return SaveNotFound;
    }
    var payload := ValidateScore(input);
    if payload.None? {
      return SaveInvalid(422, ValidationMessage(messages));
    }
    var p := payload.value;
    var m := matches.rows[i.value];
    matches.rows := matches.rows[i.value := m.(scoreUs := Some(p.scoreUs), scoreThem := Some(p.scoreThem),
                                               result := Some(p.result))];
    var agents := agentsOf(p.matchId);
    if agents.Ok? {
      var ids := MatchStatsSync.BuildRiotIdMap(users);
      var records := SaveRecords(m.id, ids, agents.value);
      var _ := agentRows.DeleteWhere(MatchStatsSync.OfMatch(m.id, MatchStatsSync.AgentMatchId));
      if |records| > 0 {
        agentRows.InsertMany(records);
      }
    }
    response := Saved("valorantScoreSaved");
  }

  /** After a save with agents, the match's agent rows are exactly the new
      records and every other match keeps its rows. */
  lemma SavedAgentsReplaced(before: seq<MatchPlayerAgentRow>, matchId: int, ids: map<string, int>,
                            entries: seq<ValorantApi.MatchAgentEntry>)
    ensures var after := Filter(before, Not(MatchStatsSync.OfMatch(matchId, MatchStatsSync.AgentMatchId)))
                         + SaveRecords(matchId, ids, entries);
      Filter(after, MatchStatsSync.OfMatch(matchId, MatchStatsSync.AgentMatchId)) == SaveRecords(matchId, ids, entries)
      && Filter(after, Not(MatchStatsSync.OfMatch(matchId, MatchStatsSync.AgentMatchId)))
         == Filter(before, Not(MatchStatsSync.OfMatch(matchId, MatchStatsSync.AgentMatchId)))
  {
    var records := SaveRecords(matchId, ids, entries);
    forall k | 0 <= k < |records| ensures MatchStatsSync.OfMatch(matchId, MatchStatsSync.AgentMatchId)(records[k]) {
      SaveRecordsOfMatch(matchId, ids, entries, records[k]);
      assert MatchStatsSync.AgentMatchId(records[k]) == matchId;
    }
    ReplaceWhere(before, MatchStatsSync.OfMatch(matchId, MatchStatsSync.AgentMatchId), records);
  }
}

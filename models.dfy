/** The database rows the core reads and writes, as values. Instants are
    milliseconds since the epoch; nullable columns are Options. */
module Models {
  import opened Wrappers

  /** A row of `matches`. */
  datatype Match = Match(
    id: int,
    scheduledAtMs: int,
    opponentName: Option<string>,
    mapName: Option<string>,  // the `map` column
    matchType: string,
    result: Option<string>,
    valorantMatchId: Option<string>,
    valorantMap: Option<string>,
    scoreUs: Option<int>,
    scoreThem: Option<int>)

  /** The primary key. */
  function MatchId(m: Match): int { m.id }

  /** The status of a nudge attempt in both audit tables. */
  datatype NudgeStatus = Sent | Blocked | Failed

  /** A row of `match_availability_nudges`: one attempt to remind a player to answer for a match. */
  datatype MatchNudgeRow = MatchNudgeRow(
    matchId: int,
    userId: int,
    adminUserId: int,
    status: NudgeStatus,
    forced: bool,
    errorCode: Option<string>,
    errorMessage: Option<string>,
    sentAtMs: Option<int>,
    createdAtMs: int)

  /** A row of `player_nudges`: one attempt to remind a player to complete their data. */
  datatype PlayerNudgeRow = PlayerNudgeRow(
    userId: int,
    adminUserId: int,
    reason: string,
    status: NudgeStatus,
    missingAvailability: bool,
    missingAgents: bool,
    errorCode: Option<string>,
    errorMessage: Option<string>,
    sentAtMs: Option<int>,
    createdAtMs: int)

  datatype NotificationType = Day | Hour | Manual

  /** A row of `match_notifications`: a reminder of one type was sent for a match. */
  datatype MatchNotificationRow = MatchNotificationRow(matchId: int, notificationType: NotificationType, sentAtMs: int)

  /** A row of `match_player_agents`: the agent a roster player used in a match. */
  datatype MatchPlayerAgentRow = MatchPlayerAgentRow(
    matchId: int,
    userId: int,
    agentKey: string,
    kills: Option<int>,
    deaths: Option<int>,
    assists: Option<int>)

  /** A row of `match_synced_players`: one player of a synced Valorant match. */
  datatype MatchSyncedPlayerRow = MatchSyncedPlayerRow(
    matchId: int,
    riotId: string,
    playerName: string,
    playerTag: Option<string>,
    team: Option<string>,
    agentKey: Option<string>,
    kills: Option<int>,
    deaths: Option<int>,
    assists: Option<int>,
    score: Option<int>,
    headshots: Option<int>,
    bodyshots: Option<int>,
    legshots: Option<int>)

  /** The key of `weekly_availabilities`, unique by migration: (user, UTC day, UTC hour). */
  datatype SlotKey = SlotKey(userId: int, dayOfWeek: int, hour: int)

  /** The key of `match_availabilities`, unique by migration: (match, user). */
  datatype AvailabilityKey = AvailabilityKey(matchId: int, userId: int)

  /** A row of `strat_books`. */
  datatype StratBook = StratBook(
    id: int,
    mapId: int,
    title: string,
    description: Option<string>,
    valoplantUrl: Option<string>,
    sortOrder: int)

  /** A row of `strat_images`. */
  datatype StratImage = StratImage(id: int, stratBookId: int, filename: string, originalName: string, sortOrder: int)
}

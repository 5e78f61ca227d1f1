# A verified model of the team-management core

The program is a server-rendered web application for a competitive Valorant
roster. Players register and wait for approval. They keep a weekly availability
grid and answer for scheduled matches. Admins schedule matches, sync their
stats from a third-party Valorant API and nudge players over Discord.

This project models, in Dafny, the parts of the program with decision and
table-update logic. Each source file becomes one module, and the file's own
form decides the model's form. Pure code becomes datatypes, functions and
lemmas. Code that loops or changes rows becomes methods, with loop invariants
and contracts proved against a specification function. Database tables are
`Tables.Table` and `Tables.KeyedTable` objects whose row sequence the methods
reassign.

| module | source | what it covers |
|---|---|---|
| `Timezone` | app/services/timezone_service.ts | local/UTC conversion of weekly (day, hour) slots, the 24-hour mapping, day names, 12-hour labels |
| `Token` | app/services/match_availability_response_token_service.ts | signed response-link tokens: creation and the ordered check of shape, signature, decoding, schema and expiry |
| `DmFailure`, `NudgeLog` | both nudge services | classification of a failed direct message; the 24-hour cooldown read from an audit log |
| `MatchNudge` | app/services/match_availability_nudge_service.ts | the batch nudge of a match's non-responders, one audit row per attempt, counters and summary |
| `PlayerNudge` | app/services/player_nudge_service.ts | the single-player data nudge and its early-return chain, always one audit row |
| `DiscordDm` | app/services/discord_dm_service.ts | the message text, the two-call DM protocol and its error codes |
| `DiscordNotification` | app/services/discord_notification_service.ts | the webhook reminder payload and its field layout |
| `MatchNotifications` | commands/send_match_notifications.ts | run modes, time windows, and the (match, type) dedup table |
| `ClearCooldown` | commands/clear_nudge_cooldown.ts | deletion of a user's 'sent' audit rows |
| `Resync` | commands/resync_valorant_matches.ts | clamping, request spacing, the bounded retry loop and retry-after parsing |
| `ValorantApi` | app/services/valorant_api_service.ts | Riot IDs, match types, score orientation, agent keys, the two response mappings |
| `SyncedPlayersOrder` | app/services/match_synced_players_order_service.ts | the majority team and the comparator sort |
| `MatchStatsSync` | app/services/match_stats_sync_service.ts | whole replacement of a match's synced-player and agent rows |
| `MatchesController`, `AvailabilityController`, `MatchAvailabilityController`, `ResponseController`, `NudgesController`, `PlayersController`, `StratsController` | app/controllers | the controllers' decisions, upserts and row edits |
| `Middleware` | app/middleware | the approval and admin gates |
| `UserModel`, `Agents` | app/models/user.ts, app/constants/agents.ts | the user getters, the `agentPrefs` codec and the agent catalogue |
| `LinkDiscord`, `RosterMigration` | commands/link_discord.ts, the `is_on_roster` migration | Discord-id linking and the roster flag normalisation |
| `Wrappers`, `Text`, `Json`, `Tables`, `Models`, `Forms` | shared | options and results, JavaScript string operations, JSON values, tables, rows, request values |

Time is an integer count of milliseconds since the epoch, passed in as `nowMs`.
Everything the program asks of the outside world is a function parameter:
HTTP requests, the Discord bot and webhook, HMAC signing, base64url and JSON
text, and the date library's parsing and formatting. Properties that depend on
such an oracle are stated for every oracle, or under a stated assumption about
it (for example, that decoding undoes encoding).

Only the Valorant resync command retries. Direct messages and webhook posts
are sent once.

## Model

| member | source | states |
|---|---|---|
| Agents.Keys | app/constants/agents.ts:42 | one key per catalogue agent, in catalogue order |
| Agents.ByRole | app/constants/agents.ts:44-47 | one group per role in role order, each holding exactly that role's agents in catalogue order |
| Agents.FilterSize | app/constants/agents.ts:46 | a role group is as large as the number of agents of that role |
| Agents.RoleCountsSum | app/constants/agents.ts:1-40 | every agent has one of the four roles, so the role counts add up to the catalogue size |
| Agents.RoleGroupsPartition | app/constants/agents.ts:44-47 | every agent is in the group of its own role and no other; the group sizes add up to the catalogue size |
| Agents.Lookup | app/constants/agents.ts:49-52 | each entry is an agent of the catalogue stored under its own key, and every catalogue key has an entry |
| Agents.CatalogueHasKayo | app/constants/agents.ts:23 | KAY/O is an Initiator stored under the key 'kay-o' |
| Agents.KeyInLookup | app/constants/agents.ts:49-52 | every agent's key is in the lookup |
| Agents.LookupLast | app/constants/agents.ts:49-52 | the entry under a key is the last agent with that key |
| Forms.ToBoolean | app/controllers/players_controller.ts:12-13 | true for the boolean true, the strings 'true', 'on' and '1' and the number 1; false for every other input (the nudge controller's `toBoolean` is the same function) |
| Middleware.Approved | app/middleware/approved_middleware.ts:5-23 | no user goes to /login; pending goes to /pending-approval; rejected is logged out and sent to /login with the rejection flash; every other user passes, and only a rejected user is logged out |
| Middleware.OnlyApprovedPass | app/middleware/approved_middleware.ts:12-22 | of the three stored approval states, only 'approved' passes the gate |
| Middleware.RejectedStaysOut | app/middleware/approved_middleware.ts:8-20 | a rejected user is logged out, and the following request, having no user, is sent to /login |
| Middleware.Admin | app/middleware/admin_middleware.ts:5-13 | the request passes exactly when there is a user whose role is 'admin'; otherwise it is sent to /dashboard with the permission flash |
| NudgesController.OutcomeFlash | app/controllers/match_availability_nudges_controller.ts:18-22 | the flash carries the service message; it is an error exactly for failed or blocked and a success exactly for sent or partial |
| NudgesController.Store | app/controllers/match_availability_nudges_controller.ts:12-24 | once the match is found, the audit log becomes what the batch nudge with the coerced `force` flag writes, the flash is that batch's outcome flash, and the redirect is the match page |
| NudgesController.StoreById | app/controllers/match_availability_nudges_controller.ts:11 | `findOrFail`: the answer is a 404 exactly when no match has the id, and then no audit row is written; otherwise the found match (which has the id) is nudged as in `Store` and the redirect is that match's page |
| NudgesController.GuardedStore | tests/functional/match_availability_nudges.spec.ts:90-111 | a request without an admin user is redirected to /dashboard with the permission flash and writes no audit row, before the match is looked up; an admin's request is a 404 exactly when no match has the id, and otherwise runs the batch nudge on the found match |
| UserModel.ApprovalGettersExclusive | app/models/user.ts:89-99 | for the three stored approval states exactly one of the getters holds, and none holds for any other value |
| UserModel.StringItems | app/models/user.ts:21 | every string element of the array is kept, and nothing but string elements |
| UserModel.StringItemsAppend | app/models/user.ts:21 | keeping the strings of two arrays one after the other gives each array's strings in turn, so order and repeats are kept |
| UserModel.StringItemsSingle | app/models/user.ts:21 | a one-element array gives that element when it is a string and nothing otherwise |
| UserModel.ParseAgentPrefs | app/models/user.ts:12-25 | [] for a null or empty column, for text that does not parse and for JSON that is not an array; for a JSON array, its string elements in order, repeats included |
| UserModel.StringItemsOfStrings | app/models/user.ts:21 | keeping the strings of an array of strings gives the list back |
| UserModel.AgentPrefsRoundTrip | app/models/user.ts:73-77 | a list stored by `prepare` is read back unchanged by `consume`, and null is read back as [] |
| UserModel.TrackerggUrl | app/models/user.ts:101-104 | no link exactly when the tracker name is null or empty; otherwise "https://tracker.gg/valorant/profile/riot/" followed by the URI-encoded tracker name |
| UserModel.TrackerggUrlInjective | app/models/user.ts:101-104 | with an injective URI encoding, two users with the same profile link have the same tracker name |
| UserModel.LogoUrl | app/models/user.ts:106-109 | no path exactly when the logo file name is null or empty; otherwise /uploads/players/ followed by the name |
| Timezone.WeekSlot | app/services/timezone_service.ts:16-18 | an ISO weekday and hour of the day fall in one of the 168 hour slots of the week |
| Timezone.FromSlot | app/services/timezone_service.ts:24-26 | every slot reads back as a day 0..6 (ISO Sunday reported as 0) and an hour 0..23 |
| Timezone.ToUtc | app/services/timezone_service.ts:8-32 | a UTC day/hour exists exactly for a known zone, a day 0..7 and an hour 0..23, and it lies within the week |
| Timezone.ToLocal | app/services/timezone_service.ts:37-59 | a local day/hour exists exactly for a known zone, a day 0..7 and an hour 0..23, and it lies within the week |
| Timezone.SlotOfFromSlot | app/services/timezone_service.ts:24-26 | reading a slot as day and hour and placing it back gives the same slot |
| Timezone.FromSlotOfSlot | app/services/timezone_service.ts:16 | placing a day and hour in the week and reading it back gives the hour and the day, with 7 read as 0 |
| Timezone.ModShiftBack | app/services/timezone_service.ts:22 | shifting a slot by an offset and back returns the slot |
| Timezone.ConvertRoundTrip | app/services/timezone_service.ts:17-26 | converting by an offset and back recovers the day (7 as 0) and the hour |
| Timezone.LocalOfUtc | app/services/timezone_service.ts:8-59 | toLocal undoes toUtc for every valid local day and hour |
| Timezone.UtcOfLocal | app/services/timezone_service.ts:8-59 | toUtc undoes toLocal for every valid UTC day and hour |
| Timezone.ToUtcInjective | app/services/timezone_service.ts:8-32 | two hours of the same local day never share a UTC slot |
| Timezone.GetLocalHoursMapping | app/services/timezone_service.ts:65-78 | 24 entries in hour order, entry h holding local hour h and its UTC slot |
| Timezone.MappingDistinct | app/services/timezone_service.ts:65-78 | the 24 UTC slots of one valid local day are pairwise distinct |
| Timezone.DayName | app/services/timezone_service.ts:80-83 | a name exactly for days 0..6 (0 is Sunday, 6 is Saturday), undefined otherwise |
| Timezone.DayNameInjective | app/services/timezone_service.ts:81 | the seven days have seven different names |
| Timezone.ClockNumber | app/services/timezone_service.ts:85-90 | the number a 12-hour clock shows lies in 1..12 |
| Timezone.FormatHour | app/services/timezone_service.ts:85-90 | for hours 0..23, the 12-hour clock number followed by AM before noon and PM from noon |
| Timezone.FormatHourInjective | app/services/timezone_service.ts:85-90 | distinct hours of the day get distinct labels |
| AvailabilityController.HeaderHours | app/controllers/availability_controller.ts:20 | twelve consecutive column hours, 12 through 23 |
| AvailabilityController.Cell | app/controllers/availability_controller.ts:28-34 | a cell is available exactly when its local hour has a UTC slot and that slot is among the user's available slots |
| AvailabilityController.DayRow | app/controllers/availability_controller.ts:22-35 | one local day's row: its number, its name and 24 cells in hour order, each the cell of that local hour |
| AvailabilityController.BuildGrid | app/controllers/availability_controller.ts:19-36 | seven rows, Monday first and Sunday last, each the row of that local day |
| AvailabilityController.Index | app/controllers/availability_controller.ts:6-43 | the viewer's grid is built from the viewer's zone and only the viewer's rows marked available |
| AvailabilityController.AvailableSlots | app/controllers/availability_controller.ts:10-16 | every UTC slot of one of the viewer's rows marked available, and nothing else |
| AvailabilityController.CellAvailableIffRow | app/controllers/availability_controller.ts:11-32 | a cell shows available exactly when the user has a row for its UTC slot whose flag is true |
| AvailabilityController.UtcSlotUnique | app/controllers/availability_controller.ts:22-23 | two cells of the grid with the same UTC slot are the same day and hour |
| AvailabilityController.GridCoversWeek | app/controllers/availability_controller.ts:19-36 | under a valid zone every UTC slot of the week is shown by exactly one cell |
| AvailabilityController.Update | app/controllers/availability_controller.ts:45-78 | exactly the (user, UTC day, UTC hour) row is written with the flag, true only for 'true' or true; every other slot keeps its value; keys stay unique; the button carries the negated flag and the slot's local day and hour |
| AvailabilityController.ToggleTwice | app/controllers/availability_controller.ts:71 | submitting the button's value flips the slot, and submitting the next button's value flips it back |
| Tables.KeyedTable.UpdateOrCreate | database/migrations/1769855808518_create_weekly_availabilities_table.ts:17 | the upsert keeps at most one row per key, sets the key's value and leaves every other key's value unchanged |
| MatchAvailabilityController.Fragment | app/controllers/match_availability_controller.ts:21-49 | three buttons submitting yes, maybe and no in that order; a button is highlighted exactly when its value equals the submitted status, so one is highlighted for a known status and none otherwise |
| MatchAvailabilityController.AtMostOneHighlighted | app/controllers/match_availability_controller.ts:27-45 | at most one button is highlighted |
| MatchAvailabilityController.Update | app/controllers/match_availability_controller.ts:5-18 | exactly the (match, user) row gets the submitted status, unvalidated; every other key keeps its value; keys stay unique; the fragment is that of the status |
| MatchAvailabilityController.AnswerIdempotent | database/migrations/1769855808521_create_match_availabilities_table.ts:16 | answering twice with the same status leaves the table as answering once |
| ResponseController.StatusLabel | app/controllers/match_availability_response_controller.ts:8-12 | the label of an answer is its stored value with the first letter capitalised |
| Tables.Find | app/controllers/match_availability_response_controller.ts:32 | a found row is in the table and has the key; no row is found only when no row has the key |
| ResponseController.Show | app/controllers/match_availability_response_controller.ts:15-77 | an expired token gives 410 "Link Expired", any other bad token 400 "Invalid Link", an unknown match or user 404, a match at or before now 410 "Match Already Passed"; only when all checks pass is the (match, user) answer upserted and a 200 success page shown; a failure leaves the table unchanged |
| ResponseController.ReplayIdempotent | app/controllers/match_availability_response_controller.ts:52-60 | following the same link twice leaves the table as following it once |
| PlayersController.Dedup | app/controllers/players_controller.ts:128 | the kept agents are exactly the submitted ones, each once |
| PlayersController.FirstPos | app/controllers/players_controller.ts:128 | the position returned holds the agent and no earlier position does |
| PlayersController.FirstPosAppend | app/controllers/players_controller.ts:128 | appending does not move an existing agent's first occurrence |
| PlayersController.DedupFirstOccurrenceOrder | app/controllers/players_controller.ts:128 | the kept agents are in the order of their first occurrences |
| PlayersController.StoreFields | app/controllers/players_controller.ts:53-62 | as written: the validator keeps only its five declared fields, so the declared fields and the password are stored as submitted, and the roster flag is false and the tracker name null whatever the form sent |
| PlayersController.StoreFieldsAsSubmitted | app/controllers/players_controller.ts:53-62 | as intended: the roster flag is the form value read as a boolean; an empty tracker name is stored as null, a non-empty one as given |
| PlayersController.CreateDropsRosterFlag | app/validators/player_validator.ts:3-11 | a create form with the roster box ticked and a tracker name stores false and null as written, but true and the name as intended |
| PlayersController.Updated | app/controllers/players_controller.ts:118-132 | as written: the identity columns (id, Discord link, approval, logo) are kept, the declared fields take the form values, and the roster flag, tracker name and agent preferences become false, null and []; the password changes only when a non-empty one is submitted |
| PlayersController.UpdateById | app/controllers/players_controller.ts:119 | `findOrFail`: no result (a 404) exactly when no user has the id; otherwise the update of a user with that id |
| PlayersController.UpdatedAsSubmitted | app/controllers/players_controller.ts:118-132 | as intended: the edited columns take the form values, the others are kept; agent preferences are the submitted agents without repeats; the password changes only when a non-empty one is submitted |
| PlayersController.EditClearsProfile | app/validators/player_validator.ts:13-21 | an edit that submits the roster box, a tracker name and two copies of one agent clears all three as written, but keeps true, the name and the one agent as intended |
| PlayersController.ShowGrid | app/controllers/players_controller.ts:71-98 | the grid and hour header exist exactly for an admin viewer, and the grid is the player's own-zone grid of their available slots |
| PlayersController.Show | app/controllers/players_controller.ts:68-107 | `findOrFail`: no page (a 404) exactly when no user has the id; otherwise the page shows a user with that id, and the grid and hour header exist exactly for an admin viewer and are that user's own-zone grid |
| PlayersController.NudgeTone | app/controllers/players_controller.ts:216-217 | success for sent, warning for blocked, error for failed |
| PlayersController.Controls | app/controllers/players_controller.ts:216-233 | the button is disabled exactly when the nudge was blocked; the flash is a success exactly when it was sent, and carries the service's message |
| PlayersController.Nudge | app/controllers/players_controller.ts:209-235 | one profile nudge attempt is logged and its controls shown |
| PlayersController.NudgeById | app/controllers/players_controller.ts:211 | `findOrFail`: no controls (a 404) exactly when no user has the id, and then no audit row is written; otherwise one nudge attempt at the found user (who has the id) is logged and its controls shown |
| Token.ParseStatus | app/services/match_availability_response_token_service.ts:35-41 | exactly "yes", "maybe" and "no" are accepted, and each parses back to its own text |
| Token.PositiveInt | app/services/match_availability_response_token_service.ts:39-42 | an accepted field is a positive integer |
| Token.ValidatePayload | app/services/match_availability_response_token_service.ts:36-44 | an accepted payload has version 1 and positive match id, user id and expiry |
| Token.ValidatePayloadJson | app/services/match_availability_response_token_service.ts:36-70 | the schema accepts a serialized payload, unchanged, exactly when version, ids and expiry meet its rules |
| Token.CreatedPayload | app/services/match_availability_response_token_service.ts:57-70 | the payload carries version 1, the given match, user and status; exp is the expiry in whole seconds rounded down, defaulting to 72 hours after now |
| Token.VerifyToken | app/services/match_availability_response_token_service.ts:77-157 | a token not made of exactly two dot-separated parts is invalid; an accepted token is two parts whose second is the signature of the first, and its expiry is after now with positive ids |
| Token.CreateThenVerify | app/services/match_availability_response_token_service.ts:57-157 | a freshly created token verifies to its own match, user and status while its expiry, truncated to seconds, is in the future and within the date range |
| Token.CreateToken | app/services/match_availability_response_token_service.ts:57-75 | with sound oracles, the token splits at its one dot into a part that decodes to the payload JSON and that part's signature |
| Token.TokenParts | app/services/match_availability_response_token_service.ts:57-75 | base64url text holds no dot, so an encoded payload, a dot and its signature split back into the two parts |
| Token.SignatureCheckedFirst | app/services/match_availability_response_token_service.ts:94-110 | a badly signed token is invalid whatever its payload and whatever the time |
| Token.ExpiredNeverOk | app/services/match_availability_response_token_service.ts:133-146 | a correctly signed, valid token whose expiry is not after now is "token_expired" |
| Token.DefaultExpiry | app/services/match_availability_response_token_service.ts:34-69 | without an explicit expiry the token expires 72 hours after creation, in whole seconds |
| DiscordDm.BuildAppLink | app/services/discord_dm_service.ts:28-33 | without APP_URL the link is the path itself; otherwise APP_URL, less one trailing slash, followed by the path |
| DiscordDm.MessageLines | app/services/discord_dm_service.ts:35-51 | the message is the greeting, a blank line, zero to two task lines, a blank line and "Thanks." |
| DiscordDm.MessageTasks | app/services/discord_dm_service.ts:36-43 | the availability task is listed exactly when availability is missing, the agent task exactly when agents are missing, availability first |
| DiscordDm.BuildMessage | app/services/discord_dm_service.ts:35-51 | when neither the player name nor APP_URL holds a newline, the message splits at its newlines into exactly its lines |
| Text.SplitJoin | app/services/discord_dm_service.ts:44-50 | joining parts that hold no separator and splitting at it gives the parts back |
| DiscordDm.SendPlayerDataNudge | app/services/discord_dm_service.ts:53-163 | success exactly when there is no error code; no request is made exactly in the test short-circuit or without a bot token; the first request opens the channel with the player's Discord id and a second one posts the built message; a success that made requests made both |
| DiscordDm.TestModeOutcomes | app/services/discord_dm_service.ts:55-86 | in the test environment "fail", "bot_token_missing" and "forbidden" force their codes and any mode but "real" succeeds with the fixed test message id |
| DiscordDm.ChannelFailures | app/services/discord_dm_service.ts:110-127 | a non-OK channel response gives discord_dm_channel_http_ and its status, a channel without a non-empty string id gives discord_dm_channel_missing_id, and no message is posted |
| DiscordDm.MessageFailure | app/services/discord_dm_service.ts:140-147 | a non-OK message response gives discord_dm_message_http_ and its status |
| DiscordDm.ErrorCodesKnown | app/services/discord_dm_service.ts:53-163 | every error code is one of the four fixed codes or an HTTP code of the channel or message request |
| DmFailure.Classify | app/services/player_nudge_service.ts:42-87 | a missing code becomes dm_send_failed; the attempt is blocked exactly for the missing-token code and the codes ending in _http_401, _http_403 or _http_404, and failed otherwise with the DM's message, defaulting to "Unknown DM send failure" |
| DmFailure.HttpCodeBlocking | app/services/player_nudge_service.ts:58-80 | an HTTP failure code blocks exactly when its status is 401, 403 or 404 |
| DmFailure.NonDigitEnd | app/services/player_nudge_service.ts:50-80 | a code not ending in a digit blocks only when it is discord_bot_token_missing |
| DmFailure.FixedCodes | app/services/player_nudge_service.ts:47-86 | the missing-token code blocks; the test-failure, request-failed and missing-channel-id codes fail; no code at all fails as dm_send_failed |
| NudgeLog.Latest | app/services/player_nudge_service.ts:214-220 | for a non-empty log, the row first under "sentAt descending, then id descending" with NULL last: no row has a later sentAt and no later row ties with it |
| NudgeLog.Anchor | app/services/player_nudge_service.ts:223 | the anchor exists exactly when a sent row exists |
| NudgeLog.CooldownUntil | app/services/player_nudge_service.ts:223-225 | the window end exists exactly when a sent row exists |
| NudgeLog.OnCooldownWhenStamped | app/services/player_nudge_service.ts:214-226 | when every sent row has sentAt, the player is on cooldown exactly when some sent row is less than 24 hours old |
| PlayerNudge.GetMissingData | app/services/player_nudge_service.ts:99-111 | availability is missing exactly when the player has no weekly row at all, agents exactly when the preference list is empty |
| PlayerNudge.RemainingMinutes | app/services/player_nudge_service.ts:90 | at least one minute, and the time left rounded up to whole minutes |
| PlayerNudge.FormatMinutesRoundTrip | app/services/player_nudge_service.ts:89-97 | any number of minutes reads back from its "Hh Mm", "Hh" or "Mm" rendering |
| PlayerNudge.FormatRemaining | app/services/player_nudge_service.ts:89-97 | the "Hh Mm", "Hh" or "Mm" text reads back as the remaining minutes |
| PlayerNudge.ParseHoursMinutes | app/services/player_nudge_service.ts:91-94 | a rendering with both hours and minutes reads back as hours times 60 plus minutes |
| PlayerNudge.CooldownEnd | app/services/player_nudge_service.ts:214-226 | a window end is returned exactly when the player is on cooldown, and it lies after now |
| PlayerNudge.DecideAgrees | app/services/player_nudge_service.ts:113-293 | whatever the inputs, the row records the outcome's status and code, the missing-data flags and the profile reason, with sentAt of now exactly when sent; a reported cooldown end lies after now |
| PlayerNudge.DecideOrder | app/services/player_nudge_service.ts:138-246 | the first failing check decides the code, and past the checks cooldown_active is reported exactly when a cooldown runs |
| PlayerNudge.CheckOrder | app/services/player_nudge_service.ts:135-246 | the checks run in order (not on roster, not approved, nothing missing, no Discord id, cooldown) and the first failing one gives its code; cooldown_active is reported exactly when the cooldown applies |
| PlayerNudge.RowMatchesOutcome | app/services/player_nudge_service.ts:113-133 | the audit row records the outcome's status and code, the target's missing-data flags, the profile reason, and sentAt of now exactly when the nudge was sent |
| PlayerNudge.DmDecides | app/services/player_nudge_service.ts:248-293 | after the checks, a DM success is "Nudge sent just now." and a failure takes the classified status, code and message |
| PlayerNudge.SentThenCooldown | app/services/player_nudge_service.ts:214-286 | after a sent nudge, a second call within 24 hours on the log holding its row is blocked with cooldown_active |
| PlayerNudge.KnownNotCooldown | app/services/discord_dm_service.ts:53-163 | no error code of the DM sender is cooldown_active, so the two cannot be confused |
| PlayerNudge.SendProfileDataNudge | app/services/player_nudge_service.ts:135-294 | each call appends exactly one audit row and returns the outcome of the decision function |
| PlayerNudge.CooldownCodeNotFromDm | app/services/player_nudge_service.ts:234-240 | the DM sender never answers with the code "cooldown_active", so that code in the log always marks a blocked attempt |
| MatchNudge.EligibleNonResponders | app/services/match_availability_nudge_service.ts:82-97 | the recipients are exactly the roster, approved, Discord-linked players with no yes/maybe/no answer for the match, never more than the users |
| MatchNudge.DisplayZone | app/services/match_availability_nudge_service.ts:121-141 | the time is shown in the player's zone when it is valid, else in UTC |
| MatchNudge.ActionPath | app/services/match_availability_nudge_service.ts:143-155 | every action link is under /match-availability/respond/ |
| MatchNudge.ActionPathVerifies | app/services/match_availability_nudge_service.ts:143-155 | the token in an action link verifies, until it expires, to this match, this player and the button's answer |
| MatchNudge.NudgeRequest | app/services/match_availability_nudge_service.ts:223-237 | the opponent is given only for scrims; the map is the synced Valorant map, else the planned one, else TBD; one link per answer |
| MatchNudge.CooldownIgnoresOthers | app/services/match_availability_nudge_service.ts:157-164 | rows of other players do not change a player's cooldown rows |
| MatchNudge.Attempt | app/services/match_availability_nudge_service.ts:208-271 | the audit row names the match, the player, the admin and now |
| MatchNudge.AttemptCases | app/services/match_availability_nudge_service.ts:208-271 | without force a player on cooldown gets a blocked cooldown_active row, not forced, and no DM; otherwise the DM result decides: sent with sentAt now, or the classified status and code with the DM's error message |
| MatchNudge.AttemptReadsSentRows | app/services/match_availability_nudge_service.ts:157-173 | an attempt depends on the log only through the player's sent rows for the match |
| MatchNudge.RunBatch | app/services/match_availability_nudge_service.ts:204-271 | the loop appends one row per recipient after the existing rows, and the three counters add up to the number of recipients |
| MatchNudge.BatchRows | app/services/match_availability_nudge_service.ts:208-271 | with distinct players, the k-th appended row is what the k-th recipient would get from the log as it was before the batch |
| MatchNudge.BatchCounters | app/services/match_availability_nudge_service.ts:204-271 | the sent, skipped and failed counters are the numbers of appended sent, blocked and failed rows |
| MatchNudge.OverallStatus | app/services/match_availability_nudge_service.ts:280-320 | failed when nothing was sent and something failed; blocked when nothing was sent or failed; partial when something was sent and something was skipped or failed; sent otherwise |
| MatchNudge.SummaryText | app/services/match_availability_nudge_service.ts:274-278 | the summary reads "Sent N nudge(s). Skipped S. Failed F.", with the singular noun exactly when N is 1 |
| MatchNudge.Nudges | app/services/match_availability_nudge_service.ts:175-321 | a past match, or one with no recipients, is refused with the log unchanged; otherwise one row per recipient is appended, the counters add up to the recipient count and the status follows the counters |
| MatchNudge.ForcedFlag | app/services/match_availability_nudge_service.ts:208-271 | a forced batch marks every row forced; without force, only cooldown rows are written, and they are not forced |
| MatchNudge.Run | app/services/match_availability_nudge_service.ts:204-271 | for any attempt, the loop appends one row per recipient after the existing rows, and the three counters add up to the number of recipients |
| MatchNudge.AttemptPerPlayer | app/services/match_availability_nudge_service.ts:157-271 | an attempt writes the player's own row and is not changed by rows of other players |
| MatchNudge.RunRows | app/services/match_availability_nudge_service.ts:208-271 | for an attempt of that kind and distinct players, the k-th appended row is what the k-th recipient gets from the log before the loop |
| MatchNudge.RunCounters | app/services/match_availability_nudge_service.ts:204-271 | for any attempt, the counters are the numbers of appended sent, blocked and failed rows |
| MatchNudge.RunAdvance | app/services/match_availability_nudge_service.ts:208-271 | one loop iteration appends the attempt's row, adds its count, and leaves the rest of the loop to finish the batch |
| MatchNudge.NudgeOne | app/services/match_availability_nudge_service.ts:209-270 | one loop iteration appends exactly the attempt's row and counts it as sent, skipped or failed |
| MatchNudge.NudgeAll | app/services/match_availability_nudge_service.ts:204-271 | the loop leaves the log and counters that the batch function gives |
| MatchNudge.SendNonResponderNudges | app/services/match_availability_nudge_service.ts:175-321 | the new log and the outcome are those of the decision function |
| ClearCooldown.FindByEmail | commands/clear_nudge_cooldown.ts:19 | no user is found only when no user has the email; a found user has it |
| ClearCooldown.ReportOf | commands/clear_nudge_cooldown.ts:36-45 | "no cooldowns" exactly when both counts are zero; otherwise both counts are reported |
| ClearCooldown.Run | commands/clear_nudge_cooldown.ts:18-46 | an unknown email changes nothing; otherwise exactly the user's sent rows leave both logs, and the number removed from each is reported |
| ClearCooldown.KeepsPlayerRow | commands/clear_nudge_cooldown.ts:26-29 | a player nudge row survives exactly when it is not a sent row of the user |
| ClearCooldown.KeepsMatchRow | commands/clear_nudge_cooldown.ts:31-34 | a match nudge row survives exactly when it is not a sent row of the user |
| ClearCooldown.SecondRunClearsNothing | commands/clear_nudge_cooldown.ts:26-45 | running the command a second time deletes nothing and reports no cooldowns |
| DiscordNotification.Mentions | app/services/discord_notification_service.ts:33 | one mention per roster member, in order, each the member's Discord id in mention markup |
| DiscordNotification.ContentAbsent | app/services/discord_notification_service.ts:31-71 | the content is left out exactly when no roster member has a Discord id, and otherwise starts with the first member's mention |
| DiscordNotification.TypeField | app/services/discord_notification_service.ts:47-51 | the type field reads "Official" exactly for an official match, "Scrim" otherwise |
| DiscordNotification.BuildFields | app/services/discord_notification_service.ts:41-68 | Time then Type, with the opponent put in front exactly when there is one and the map put last exactly when there is one; every field is inline |
| DiscordNotification.FieldLayoutUnique | app/services/discord_notification_service.ts:41-68 | the reminder layout determines the fields: two field lists with that layout for the same match are equal |
| DiscordNotification.SendMatchReminder | app/services/discord_notification_service.ts:25-102 | without a webhook URL nothing is posted and the result is false; otherwise one payload goes to the URL with the mentions and one embed (24-hour or 1-hour title and colour, the match type in the description, and fields with the reminder layout: opponent first when there is one, then time and type, then the map when there is one), and the result is true exactly when the webhook answers with a 2xx status |
| MatchNotifications.ModeOf | commands/send_match_notifications.ts:28-43 | the test flag wins, then a non-zero match id, then the catch-up flag, else the windowed run |
| MatchNotifications.SelectedExactly | commands/send_match_notifications.ts:45-61 | the 24-hour query selects the matches 23 to 25 hours away, the 1-hour query those 30 to 90 minutes away and the catch-up query those more than 1 and at most 24 hours away, ends as written; no match is in both windows of the default run |
| MatchNotifications.StepCases | commands/send_match_notifications.ts:67-104 | a match already notified for the type is skipped before any pairing or sending; a failed send records nothing; a delivered one appends the match's row and then the paired match's row |
| MatchNotifications.StepRecords | commands/send_match_notifications.ts:82-88 | after a delivered reminder the match has a notification of the type |
| MatchNotifications.AppendFresh | database/migrations/1770200000000_create_match_notifications_table.ts:12 | appending a row whose key is not present keeps the (match, type) key unique |
| MatchNotifications.StepKeepsKey | commands/send_match_notifications.ts:82-96 | a step never leaves two rows with the same key: the paired insert that the key refuses ends the command instead |
| MatchNotifications.RunWindow | commands/send_match_notifications.ts:63-104 | a loop only appends to the table, and counts at most one sent or skipped per selected match |
| MatchNotifications.RunWindowKeepsKey | commands/send_match_notifications.ts:67-104 | a loop keeps the (match, type) key unique |
| MatchNotifications.RunWindowRecords | commands/send_match_notifications.ts:67-104 | after a loop that ran to the end, every selected match whose reminder was delivered has a notification of the type |
| MatchNotifications.RemindOne | commands/send_match_notifications.ts:68-103 | one iteration changes the table as the step function says |
| MatchNotifications.Advance | commands/send_match_notifications.ts:67-104 | one iteration carries the loop invariant: after the step, its count added and an abort ending the loop, the counters so far plus the rest of the loop still give the whole result |
| MatchNotifications.RemindAll | commands/send_match_notifications.ts:63-104 | the loop leaves the table and counters the loop function gives |
| MatchNotifications.OtherTypesIgnored | commands/send_match_notifications.ts:68-71 | notifications of other types never decide a step |
| MatchNotifications.FindMatch | commands/send_match_notifications.ts:169 | no match is found only when none has the id; a found one has it |
| MatchNotifications.Command | commands/send_match_notifications.ts:28-272 | the test mode records nothing; the manual mode refuses an unknown or past match, and skips an already notified one, without touching the table; the loops count at most one sent or skipped per selected match; the table only grows |
| MatchNotifications.CommandKeepsKey | commands/send_match_notifications.ts:28-272 | no mode records a second notification of a type for a match |
| MatchNotifications.SendNotifications | commands/send_match_notifications.ts:28-272 | the command changes the table and reports as the command function says |
| DiscordNotification.RosterMembersLinked | app/services/discord_notification_service.ts:31-33 | every mentioned roster member has a Discord id |
| Resync.Clamp | commands/resync_valorant_matches.ts:145-147 | the result lies within the bounds, is the value itself when it already does, and the nearer bound otherwise |
| Resync.EffectiveRpm | commands/resync_valorant_matches.ts:60 | requests per minute are the flag, 25 by default, kept within 1 to 30 |
| Resync.CeilDiv | commands/resync_valorant_matches.ts:62 | the quotient rounded up |
| Resync.IntervalBounds | commands/resync_valorant_matches.ts:60-62 | the interval derived from the rate lies between 2 and 60 seconds |
| Resync.SettingsOf | commands/resync_valorant_matches.ts:60-63 | a positive delay flag is the interval; otherwise the interval is one minute divided by the rate, rounded up; attempts are one plus the retries kept within 0 to 10, three by default |
| Resync.Find429Exactly | commands/resync_valorant_matches.ts:128 | the scan finds a 429 exactly when one stands between word boundaries |
| Resync.FindFromExactly | commands/resync_valorant_matches.ts:128 | the scan finds "rate limit" exactly when the lower-cased message contains it |
| Resync.ApiStatus429 | commands/resync_valorant_matches.ts:126-129 | a Valorant API error with status 429 is a rate-limit error whatever its text |
| Resync.LongerNumberNot429 | commands/resync_valorant_matches.ts:128 | a number such as 4290 does not count as a standalone 429 |
| Resync.FirstMatch | commands/resync_valorant_matches.ts:132-137 | the leftmost position where the retry-after pattern matches, if any |
| Resync.RetryAfterMillis | commands/resync_valorant_matches.ts:131-135 | "retry after N ms" yields N |
| Resync.RetryAfterSeconds | commands/resync_valorant_matches.ts:137-140 | "retry after N s" yields N times 1000 |
| Resync.Retry | commands/resync_valorant_matches.ts:90-113 | no more calls than the attempts left |
| Resync.RetryProgress | commands/resync_valorant_matches.ts:91-110 | one pass of the retry loop either ends with the whole result or records the next retried error |
| Resync.RetryOutcome | commands/resync_valorant_matches.ts:90-113 | with at least one attempt the retries are never exhausted: the result is the last call's, and every earlier call failed with a rate-limit error |
| Resync.Selected | commands/resync_valorant_matches.ts:39-47 | only matches with a stored Valorant id, only the given match when an id is set, in ascending id order, at most the limit when it is positive; a wanted match is left out only when the limit is reached, and then its id is at least every selected id |
| Resync.InsertById | commands/resync_valorant_matches.ts:39 | inserting into an id-sorted list keeps it id-sorted and adds exactly the one match |
| Resync.OrderById | commands/resync_valorant_matches.ts:39 | `orderBy('id', 'asc')`: the same matches, in ascending id order |
| Resync.FilterIdSorted | commands/resync_valorant_matches.ts:39-43 | filtering an id-sorted list keeps it id-sorted |
| Resync.Picked | commands/resync_valorant_matches.ts:39-43 | exactly the matches with a stored Valorant id (and the given id, when set), in ascending id order |
| Resync.Limited | commands/resync_valorant_matches.ts:45-47 | a prefix of the rows, at most the limit long when the limit is positive |
| Resync.LimitedComplete | commands/resync_valorant_matches.ts:45-47 | a row of an id-sorted list that the limit cuts off comes after every kept row, and the limit was reached |
| Resync.IsRateLimitError | commands/resync_valorant_matches.ts:126-129 | true exactly for an Error whose message has a standalone 429 or contains "rate limit" in any case |
| Resync.ExtractRetryAfterMs | commands/resync_valorant_matches.ts:131-143 | none exactly when neither the millisecond nor the seconds form matches anywhere; otherwise the leftmost millisecond match, else the leftmost seconds match times 1000 |
| Resync.PickLeftmost | commands/resync_valorant_matches.ts:131-143 | the millisecond form wins at its leftmost match; the seconds form is used only when the millisecond form matches nowhere |
| Resync.SyncAll | commands/resync_valorant_matches.ts:70-83 | every selected match counts as updated or failed |
| Resync.TallyStep | commands/resync_valorant_matches.ts:70-83 | counting one match keeps the counts so far plus the rest equal to the whole tally |
| Resync.TallyDone | commands/resync_valorant_matches.ts:70-83 | with every match counted, the counts are the tally |
| Resync.Resyncer.constructor | commands/resync_valorant_matches.ts:36 | no request has been made yet |
| Resync.Resyncer.Sleep | commands/resync_valorant_matches.ts:149-153 | the clock moves on by the delay and nothing else changes |
| Resync.Resyncer.WaitForInterval | commands/resync_valorant_matches.ts:115-124 | no wait before the first request; otherwise the clock reaches the last request's start plus the interval |
| Resync.Resyncer.Request | commands/resync_valorant_matches.ts:92-96 | one request, started after the wait, so consecutive request starts stay at least the interval apart |
| Resync.Resyncer.TryOnce | commands/resync_valorant_matches.ts:91-109 | one attempt; it is retried exactly when it failed with a rate-limit error and attempts are left |
| Resync.Resyncer.SyncMatchWithRetry | commands/resync_valorant_matches.ts:90-113 | the result, number of requests and retried errors are those of the retry function, with requests spaced |
| Resync.Resyncer.SyncEach | commands/resync_valorant_matches.ts:70-83 | the counts are the tally of the selected matches |
| Resync.Resyncer.Run | commands/resync_valorant_matches.ts:38-88 | no request without selected matches; otherwise the report is the tally of the selected matches under the settings of the flags |
| ValorantApi.ParseRiotId | app/services/valorant_api_service.ts:87-96 | a Riot ID parses exactly when it holds one '#' |
| ValorantApi.ParseRiotIdJoin | app/services/valorant_api_service.ts:87-96 | a name and a tag joined by '#' parse back to the trimmed name and tag |
| ValorantApi.RiotKey | app/services/valorant_api_service.ts:161 | the key is the name, '#', then the tag, character for character in lower case |
| ValorantApi.GetMatchType | app/services/valorant_api_service.ts:247-266 | Premier exactly when there is tournament or matchup data or a name mentions premier; Custom exactly when it is not Premier and a name mentions custom; a label exactly for Premier and Custom |
| ValorantApi.LowerIdempotent | app/services/valorant_api_service.ts:254-256 | lower-casing twice is lower-casing once |
| ValorantApi.MatchTypeIgnoresCase | app/services/valorant_api_service.ts:254-258 | the classification does not depend on the case of the queue, mode or mode id |
| ValorantApi.FirstPlayer | app/services/valorant_api_service.ts:273-276 | the first player matching name and tag, ignoring case, or none when no player matches |
| ValorantApi.FindPlayerTeam | app/services/valorant_api_service.ts:268-284 | a team is found only when a player matches; Red and Blue are the only answers; none when no player matches |
| ValorantApi.FirstPlayerDecides | app/services/valorant_api_service.ts:273-283 | the first matching player's team decides, whatever later players say |
| ValorantApi.CalculateScores | app/services/valorant_api_service.ts:286-306 | scores exist exactly when both teams' rounds are numbers; our team's rounds come first |
| ValorantApi.DetermineResult | app/services/valorant_api_service.ts:308-312 | win exactly when ours is higher, loss exactly when it is lower, draw exactly when equal |
| ValorantApi.OtherSideOpposite | app/services/valorant_api_service.ts:286-312 | seen from the other team the scores swap and the result is the opposite one |
| ValorantApi.Dashify | app/services/valorant_api_service.ts:319 | the result has only key characters (a-z, 0-9) and single dashes, is empty exactly when the input is, and starts with a dash exactly when the input starts with another character |
| ValorantApi.DashifyKeepsKeys | app/services/valorant_api_service.ts:319 | the key characters of the input survive in order: the result and the input have the same key characters |
| ValorantApi.DashifySnoc | app/services/valorant_api_service.ts:319 | every run of other characters becomes one dash: one more key character is appended, one more other character appends a dash unless it continues a run, which already has its dash |
| ValorantApi.SkipRunSnoc | app/services/valorant_api_service.ts:319 | skipping a run at the front of a longer text: the skipped run of the shorter text, and the last character only when the whole text is a run and that character is outside the key set |
| ValorantApi.SkipRunDropsRun | app/services/valorant_api_service.ts:319 | what is skipped at the front is all outside the key set, so the key characters are kept |
| ValorantApi.DropLeadingDashes | app/services/valorant_api_service.ts:320 | a suffix of the input that does not start with a dash, and what was dropped is all dashes |
| ValorantApi.DropTrailingDashes | app/services/valorant_api_service.ts:321 | a prefix of the input that does not end with a dash, and what was dropped is all dashes |
| ValorantApi.NormalizeAgentKey | app/services/valorant_api_service.ts:314-322 | none exactly when the trimmed, lower-cased name is empty; otherwise key characters and single dashes, with no dash at either end |
| ValorantApi.StripNormal | app/services/valorant_api_service.ts:319-321 | dropping the dashes at both ends of a dashed text leaves a normal key |
| ValorantApi.DashifyFixed | app/services/valorant_api_service.ts:319 | replacing the runs leaves a dashed text unchanged |
| ValorantApi.NormalKeyClean | app/services/valorant_api_service.ts:315 | trimming and lower-casing leave a normal key unchanged |
| ValorantApi.NormalizeIdempotent | app/services/valorant_api_service.ts:314-322 | normalising a normalised key gives it back, except "kayo", which is then read as KAY/O |
| ValorantApi.KayoSlash | app/services/valorant_api_service.ts:317 | "KAY/O" gives kay-o |
| ValorantApi.KayoPadded | app/services/valorant_api_service.ts:315-317 | " Kayo " gives kay-o |
| ValorantApi.FirstNonEmpty | app/services/valorant_api_service.ts:129-135 | a found agent name is non-empty and is the string held by one of the fields |
| ValorantApi.CharacterFirst | app/services/valorant_api_service.ts:129-135 | a non-empty character name hides every later field |
| ValorantApi.StatCount | app/services/valorant_api_service.ts:144-158 | a top-level count wins over the one under stats |
| ValorantApi.AgentEntry | app/services/valorant_api_service.ts:124-166 | with the lookup limited to the catalogue's own keys: a kept player has a non-empty trimmed name and tag, the lower-case "name#tag" as Riot ID, a catalogue agent key, and the resolved counts; the check as written keeps the same entry |
| ValorantApi.EntryWhere | app/services/valorant_api_service.ts:124-166 | a kept player has a non-empty trimmed name and tag, the lower-case "name#tag" as Riot ID, a non-empty agent key the given lookup accepts, and the resolved counts |
| ValorantApi.AgentEntryAsWritten | app/services/valorant_api_service.ts:140 | as written, `AGENT_LOOKUP[agentKey]` on a plain object: a kept key is a catalogue key or "constructor", the one inherited property a normalised key can name |
| ValorantApi.ConstructorKept | app/services/valorant_api_service.ts:140 | a player with a name and tag whose character is "Constructor" is kept as written, with the agent key "constructor", which names no agent; the catalogue-only check drops them |
| ValorantApi.ConstructorNotCatalogued | app/constants/agents.ts:49-52 | no catalogue agent has the key "constructor" |
| ValorantApi.ConstructorKey | app/services/valorant_api_service.ts:314-322 | "Constructor" normalises to "constructor" |
| ValorantApi.CapitalisedKey | app/services/valorant_api_service.ts:314-322 | a capitalised word of key characters normalises to its lower-case spelling |
| ValorantApi.CleanWordKey | app/services/valorant_api_service.ts:314-322 | a name whose trimmed lower-case form is a word of key characters other than "kayo" normalises to that word |
| ValorantApi.PlainKey | app/services/valorant_api_service.ts:314-322 | a lower-case word of key characters other than "kayo" normalises to itself |
| ValorantApi.GetMatchAgents | app/services/valorant_api_service.ts:98-169 | no API key: "not configured"; a non-2xx response: the HTTP error with its status and text; a malformed body fails exactly when it is not JSON, `all_players` is not an array, or one of its elements is `null` (where `player.name` throws); otherwise the entries are those of `AgentEntry` over `all_players` in order, or none when the path is missing, and each names a catalogue agent |
| ValorantApi.AgentEntriesValid | app/services/valorant_api_service.ts:122-168 | every kept entry names a catalogue agent (with the catalogue-only check) |
| ValorantApi.ParseMatch | app/services/valorant_api_service.ts:210-243 | a match is kept exactly when its type is shown, the player is on Red or Blue and both scores are numbers; a kept match carries the scores seen from the player's team, the result of comparing them, the metadata's match id, map, mode and start time, and the match type and label |
| ValorantApi.GetRecentMatches | app/services/valorant_api_service.ts:171-245 | no API key: "not configured"; a non-2xx response: the HTTP error with its status and text; a malformed body exactly when the body is not JSON or fails the response schema; otherwise the parsed matches of the validated data |
| ValorantApi.RecentMatches | app/services/valorant_api_service.ts:209-244 | no more parsed matches than matches in the response |
| ValorantApi.RecentMatchesSound | app/services/valorant_api_service.ts:209-244 | every listed match comes from the response with the player on a team, is not Other unless all are shown, has a label exactly when not Other, and its result agrees with its score |
| ValorantApi.RecentMatchesComplete | app/services/valorant_api_service.ts:209-244 | every match of a shown type with the player on a team and both scores is listed |
| SyncedPlayersOrder.KnownKey | app/services/match_synced_players_order_service.ts:12-15 | a user gives a key exactly when their tracker username is set and parses as a Riot ID |
| SyncedPlayersOrder.KeySetMembers | app/services/match_synced_players_order_service.ts:10-16 | a key is collected exactly when some element gives it |
| SyncedPlayersOrder.KnownIdsMembers | app/services/match_synced_players_order_service.ts:8-19 | a Riot ID is known exactly when some user's tracker username parses to it |
| SyncedPlayersOrder.GetKnownRiotIds | app/services/match_synced_players_order_service.ts:8-19 | the loop collects exactly the known Riot IDs of the users |
| SyncedPlayersOrder.DetermineOurTeam | app/services/match_synced_players_order_service.ts:21-45 | the loop's answer is the team with more known players, the first known player's team on a tie, and none when no known player is on Red or Blue |
| SyncedPlayersOrder.FirstKnownExists | app/services/match_synced_players_order_service.ts:29-41 | a first known team exists exactly when some player is counted, exactly when the counts are not both zero |
| SyncedPlayersOrder.FirstKnownIsFirst | app/services/match_synced_players_order_service.ts:33-35 | the first known team is the team of a counted player with no counted player before it |
| SyncedPlayersOrder.OurTeamCases | app/services/match_synced_players_order_service.ts:41-44 | no team exactly when no known player is on Red or Blue; the chosen team never has fewer known players than the other |
| SyncedPlayersOrder.TeamRank | app/services/match_synced_players_order_service.ts:64-80 | rank 0 exactly for our team, 1 exactly for the other one, 2 for anything else; with no team known Red ranks first |
| SyncedPlayersOrder.RankWithoutTeam | app/services/match_synced_players_order_service.ts:77-79 | with no team known, ranks are those of Red being ours |
| SyncedPlayersOrder.NameCompare | app/services/match_synced_players_order_service.ts:60 | -1, 0 or 1, and 0 exactly for equal names |
| SyncedPlayersOrder.NameCompareAntisymmetric | app/services/match_synced_players_order_service.ts:60 | swapping the names negates the comparison |
| SyncedPlayersOrder.CompareAntisymmetric | app/services/match_synced_players_order_service.ts:48-61 | swapping the players negates the comparator |
| SyncedPlayersOrder.Compare | app/services/match_synced_players_order_service.ts:48-61 | the sign follows the keys: lower team rank first; within a rank the higher score first; within a rank and score more kills first (a missing value counting as -1); then the name; a tie exactly when all four agree; `r <= 0` exactly when `KeyOrder` holds |
| SyncedPlayersOrder.NameCompareTransitive | app/services/match_synced_players_order_service.ts:60 | name order is transitive |
| SyncedPlayersOrder.KeyOrderTransitive | app/services/match_synced_players_order_service.ts:48-61 | the key order of the comparator is transitive |
| SyncedPlayersOrder.SortedPairs | app/services/match_synced_players_order_service.ts:47-62 | in a list whose neighbours are in comparator order, any earlier row is in key order with any later one |
| SyncedPlayersOrder.SortOrder | app/services/match_synced_players_order_service.ts:47-62 | for any two positions of the sorted list: team rank never goes down; within a rank the score never goes up; within rank and score the kills never go up; rows equal on all three are in name order |
| SyncedPlayersOrder.InsertSorted | app/services/match_synced_players_order_service.ts:48 | inserting adds exactly one copy of the player |
| SyncedPlayersOrder.InsertKeepsSorted | app/services/match_synced_players_order_service.ts:48 | inserting into a sorted list keeps it sorted |
| SyncedPlayersOrder.SortPlayers | app/services/match_synced_players_order_service.ts:47-62 | the result is a permutation of the players, with neighbours in comparator order (the key order for every pair follows in SortOrder) |
| SyncedPlayersOrder.OurTeamFirst | app/services/match_synced_players_order_service.ts:49-50 | in the sorted list no player's team ranks after that of any later player |
| MatchStatsSync.KeyMapDomain | app/services/match_stats_sync_service.ts:20-25 | the map built in order has an entry exactly for the keys the elements give |
| MatchStatsSync.KeyMapLastWins | app/services/match_stats_sync_service.ts:24 | a later element with the same key overwrites an earlier one |
| MatchStatsSync.BuildRiotIdMap | app/services/match_stats_sync_service.ts:17-25 | the loop builds exactly the Riot-ID-to-user map |
| MatchStatsSync.RiotIdMapKeys | app/services/match_stats_sync_service.ts:17-25 | the map has an entry exactly for each Riot ID the app knows |
| MatchStatsSync.RiotIdMapLastWins | app/services/match_stats_sync_service.ts:20-25 | of several users with the same Riot ID the last one is mapped |
| MatchStatsSync.AgentRecord | app/services/match_stats_sync_service.ts:28-40 | a snapshot player gives an agent row exactly when its Riot ID maps to a non-zero user id and it has a non-empty agent, and the row carries the match, that user, the agent and the counts |
| MatchStatsSync.RosterAgentRecords | app/services/match_stats_sync_service.ts:27-52 | no more agent rows than snapshot players, all of this match |
| MatchStatsSync.SyncedRecords | app/services/match_stats_sync_service.ts:54-68 | one synced-player row per snapshot player, in order, carrying its match, Riot ID, name, team and score |
| MatchStatsSync.AgentRowsFromSyncedRows | app/services/match_stats_sync_service.ts:27-68 | every agent row belongs to a snapshot player whose synced row has the same agent |
| MatchStatsSync.SyncFromValorantMatchId | app/services/match_stats_sync_service.ts:8-90 | with neither an explicit nor a stored Valorant id: the "does not have a stored Valorant match id" error and nothing changes; on success both tables lose this match's rows and gain the new records, the map is set only when the snapshot has one, and the counts are the records' lengths, roster never more than synced |
| MatchStatsSync.AgentRowsReplaced | app/services/match_stats_sync_service.ts:70-75 | after a sync the match's agent rows are exactly the new records and other matches' rows are unchanged |
| MatchStatsSync.SyncedRowsReplaced | app/services/match_stats_sync_service.ts:71-79 | after a sync the match's synced rows are exactly the new records and other matches' rows are unchanged |
| MatchStatsSync.SyncTwiceSameRows | app/services/match_stats_sync_service.ts:70-79 | syncing the same snapshot twice leaves the rows of syncing it once |
| LinkDiscord.Link | commands/link_discord.ts:19-39 | not found exactly when no account has the email; refused, naming the other account's email, when a different account holds the Discord id; otherwise only the first account with the email gains the id; nothing changes unless linked |
| LinkDiscord.Run | commands/link_discord.ts:19-39 | the command leaves the users table and reports as the link function says |
| LinkDiscord.LinkKeepsDiscordIdsUnique | commands/link_discord.ts:27-35 | linking never gives two accounts the same Discord id |
| LinkDiscord.RelinkIsNoChange | commands/link_discord.ts:27-35 | linking an account to the id it already holds is allowed and changes nothing |
| RosterMigration.CastText | database/migrations/1770300000002_normalize_users_is_on_roster_values.ts:10 | the cast gives no text exactly for NULL |
| RosterMigration.TrimSpaces | database/migrations/1770300000002_normalize_users_is_on_roster_values.ts:10 | a slice of the input with only spaces cut off either end, and no space at either end of the result |
| RosterMigration.Normalized | database/migrations/1770300000002_normalize_users_is_on_roster_values.ts:8-16 | a yes-word (true, on, yes, any case, spaces trimmed) becomes 1, a no-word (false, off, no, empty) becomes 0, anything else and NULL stay as stored |
| RosterMigration.Up | database/migrations/1770300000002_normalize_users_is_on_roster_values.ts:6-18 | the two bulk updates leave every row with its normalised value and the same number of rows |
| RosterMigration.DigitTexts | database/migrations/1770300000002_normalize_users_is_on_roster_values.ts:11-16 | 1 and 0 read back as the texts "1" and "0" |
| RosterMigration.OneNotFalseWord | database/migrations/1770300000002_normalize_users_is_on_roster_values.ts:13-16 | a 1 written by the first update is not a no-word for the second |
| RosterMigration.NormalizedIdempotent | database/migrations/1770300000002_normalize_users_is_on_roster_values.ts:6-18 | running the migration twice is running it once |
| RosterMigration.DigitStringsUnchanged | database/migrations/1770300000002_normalize_users_is_on_roster_values.ts:10-15 | the stored texts "1" and "0" are in neither word list and stay as they are |
| RosterMigration.Down | database/migrations/1770300000002_normalize_users_is_on_roster_values.ts:20-22 | the normalisation is not reversed: down changes nothing |
| MatchesController.IndexPartition | app/controllers/matches_controller.ts:23-24 | every match is in exactly one of the two lists, and in the upcoming one exactly when it is in the future and has no result |
| MatchesController.IndexSizes | app/controllers/matches_controller.ts:15-31 | the two lists together are as long as the query result |
| MatchesController.UtcSlot | app/controllers/matches_controller.ts:40-56 | a slot exactly when the input is non-empty, parses, and converts to UTC in the user's zone; the slot lies in the week; no input or an unknown zone gives none |
| MatchesController.ByUserEntry | app/controllers/matches_controller.ts:67-70 | a user has an entry exactly when one of the rows is theirs, and the entry is one of their rows' flags |
| MatchesController.BuildByUser | app/controllers/matches_controller.ts:67-70 | the loop builds exactly the per-user map, later rows overwriting |
| MatchesController.CheckAvailability | app/controllers/matches_controller.ts:38-96 | no date exactly when the slot cannot be read; otherwise one entry per roster player in order with their fields and availability, the available count being the number flagged and never above the total |
| MatchesController.AvailableIffSlotRow | app/controllers/matches_controller.ts:63-73 | with one row per user and slot, a player is shown available exactly when their row for the UTC slot says so |
| MatchesController.ResultHtml | app/controllers/matches_controller.ts:219-233 | the WIN, LOSS and DRAW badges exactly for win, loss and draw, "Pending" for anything else |
| MatchesController.UpdateResult | app/controllers/matches_controller.ts:212-237 | an unknown id changes nothing; otherwise only that match's result changes, and an htmx request gets the badge, others a redirect to /matches |
| MatchesController.UnknownResultIsPast | app/controllers/matches_controller.ts:214-232 | a result other than win, loss or draw is stored, moves the match to the past list, and shows "Pending" |
| MatchesController.Step1Players | app/controllers/matches_controller.ts:242-251 | exactly the approved roster players whose tracker name holds one '#' |
| MatchesController.Step1PlayersKnown | app/controllers/matches_controller.ts:248-251 | every listed player has a Riot-ID key |
| MatchesController.ValidateScore | app/validators/valorant_validator.ts:3-10 | accepted exactly when both scores are at least 0, the result is win, loss or draw and the trimmed match id is non-empty; the payload keeps the trimmed id |
| MatchesController.ValidationMessage | app/controllers/matches_controller.ts:302-308 | the validator's first message when it has one, "Invalid score data." otherwise |
| MatchesController.SaveRecord | app/controllers/matches_controller.ts:332-353 | an entry gives an agent row exactly when its Riot ID maps to a non-zero user id and it names an agent |
| MatchesController.SaveRecords | app/controllers/matches_controller.ts:331-354 | no more rows than entries, and exactly the rows the entries give |
| MatchesController.SaveRecordsOfMatch | app/controllers/matches_controller.ts:336-338 | every saved row belongs to the match and to a non-zero user of the Riot-ID map |
| MatchesController.FetchFromValorantSave | app/controllers/matches_controller.ts:295-369 | an unknown id changes nothing; a rejected form answers 422 with the message and changes nothing; otherwise the score and result are saved, and when the agents are fetched the match's agent rows are replaced by the new records, while a failed fetch keeps the old rows |
| MatchesController.SavedAgentsReplaced | app/controllers/matches_controller.ts:356-359 | after a save with agents the match's agent rows are exactly the new records and other matches keep theirs |
| StratsController.MaxSortOrder | app/controllers/strats_controller.ts:37-40 | none exactly when no row of the group exists; otherwise the sort order of a row of the group that no other row of the group exceeds |
| StratsController.NextSortOrderAbove | app/controllers/strats_controller.ts:47 | the new sort order is above every existing one of its group, and the first of a group gets 1 |
| StratsController.FindMap | app/controllers/strats_controller.ts:34 | the map with the slug, or none when no map has it |
| StratsController.FindStrat | app/controllers/strats_controller.ts:56-60 | the position of a strat with the id on the map, or none exactly when no strat of that map has the id |
| StratsController.Reached | app/controllers/strats_controller.ts:66-70 | a request reaches only a strat with that id on the map the slug names |
| StratsController.OtherMapNotReached | app/controllers/strats_controller.ts:67-70 | a strat of another map is never reached through this map's slug |
| Wrappers.OrNull | app/controllers/strats_controller.ts:45-46 | a missing or empty text is stored as null, any other as given, as `value or null` does in JavaScript (the stored match result is the same function) |
| StratsController.Store | app/controllers/strats_controller.ts:33-52 | an unknown slug changes nothing; otherwise one strat of that map is appended with the next sort order of its map, and the redirect carries the success flash |
| StratsController.Update | app/controllers/strats_controller.ts:65-81 | an unreached strat changes nothing; otherwise only its title, description and link change, keeping its map, id and place |
| StratsController.Destroy | app/controllers/strats_controller.ts:83-108 | an unreached strat changes nothing; otherwise the strat and, by the cascade, its images are removed, and an htmx request gets an empty body |
| StratsController.UploadImage | app/controllers/strats_controller.ts:110-156 | nothing is stored unless the upload succeeds; no strat: not found; no file or an invalid one: back to the edit page with the error; otherwise one image appended with the next sort order of its strat |
| StratsController.DeleteImage | app/controllers/strats_controller.ts:158-176 | an unknown image id changes nothing; otherwise that image is removed and an htmx request gets an empty body |
| Tables.UpsertLookup | app/controllers/match_availability_controller.ts:10-18 | after `updateOrCreate` the key holds the new value and every other key keeps its value |
| Tables.UpsertUnique | database/migrations/1769855808521_create_match_availabilities_table.ts:16 | an upsert keeps at most one row per key, as the unique constraint demands |
| Tables.UpsertIdempotent | app/controllers/match_availability_response_controller.ts:52-60 | repeating an upsert with the same key and value changes nothing |

## Left out

- Network I/O is not modelled: every `fetch` to the Valorant API, the Discord bot API and the Discord webhook is an oracle parameter. The oracle returns a response record or a thrown error.
- `findPairedMatch` and the three-argument `sendMatchReminder(match, type, paired)` are oracles. commands/send_match_notifications.ts calls both (lines 80-82, 120-122, 192-194, 245-247). However, app/services/discord_notification_service.ts has no `findPairedMatch`, and its `sendMatchReminder` (line 25) takes only the match and the type, so neither called version has a body to model. `MatchNotifications.Services` stands in for both: one function gives the paired match of a match, and one says whether a send succeeded. `DiscordNotification.SendMatchReminder` models the two-argument method as written. `getMatchStatsSnapshot`, called at app/services/match_stats_sync_service.ts:15, is missing from app/services/valorant_api_service.ts as well and is an oracle too. Likewise `sendMatchAvailabilityNudge`, called at app/services/match_availability_nudge_service.ts:224, has no body in app/services/discord_dm_service.ts, whose only sender is `sendPlayerDataNudge` (line 53). `MatchNudge.Services.send` stands in for it, and every `MatchNudge` property holds for any such sender.
- Cryptography and encodings (HMAC-SHA256, base64url, `JSON.parse`/`JSON.stringify`, `encodeURIComponent`) are uninterpreted functions. Round trips are stated under an explicit assumption that decoding undoes encoding. `timingSafeEqual` is plain equality, since its constant time cannot be expressed here.
- The date library is left out: no time-zone database, no daylight saving. A time zone is a fixed whole-hour offset. Parsing `yyyy-MM-dd HH:mm` and ISO formatting are oracles.
- The program reads the clock several times per request. The model takes one instant `nowMs` for the whole request.
- The HTTP framework is not modelled: sessions, CSRF, view rendering, HTMX headers and routes. Controllers are decision functions and methods over their inputs and tables, and a redirect, a fragment or a flash is a value.
- File uploads, the removal of uploaded files, logo upload and `destroyLogo` are left out as file-system work. `StratsController.UploadImage` models only the rows and the validation outcome.
- Writing the raw Valorant response to a log file in `getRecentMatches` is file-system work and is left out. So are log and console messages.
- Trivial CRUD handlers are not modelled: the matches `create`, `store`, `show`, `edit`, `update` and `destroy`; the players `index`, `create`, `edit` and `destroy`; the strats `index`, `showMap`, `create` and `edit`. Each only sets columns from validated input or runs a query.
- Password hashing is left to the ORM hook. `PlayersController.Updated` models only whether the password changes.
- The validation library is reduced to what the core relies on: the score rules of the Valorant save, and, for the player forms, that validation keeps only the five declared fields (`fullName`, `email`, `password`, `role`, `timezone`). Length, e-mail and enum rules are not modelled.
- The order in which queries return rows (`orderBy('fullName')`, `orderBy('scheduledAt')`) is not modelled. Results keep the table order, except for the cooldown's `sentAt`/`id` ordering and the resync command's `id` ordering, which are modelled.
- Concurrency is left out: the read-then-insert race in which two admins both nudge the same player, and two notification runs at once. The unique key of `match_notifications` is modelled, and an insert it refuses ends the run as `Aborted`.
- Scores, kills and other numbers are integers. JavaScript floating point, `NaN` and fractional values are not modelled, and `parseInt` reads a run of decimal digits.
- `Text.Lower` lowers ASCII letters only. JavaScript `toLowerCase` also folds non-ASCII letters.
- The regular expressions of the resync command are modelled as hand-written scanners with the same leftmost-match result. The regex engine itself is not modelled.
- `scripts/download-agent-icons.js`, seeders, schema-only migrations and the test suite are not part of this model.
- SyncedPlayersOrder.NameCompare: compares player names by character code, not by the locale collation of `localeCompare`. The sort's other keys (team, score, kills) are exact, as stated by SyncedPlayersOrder.Compare and SyncedPlayersOrder.SortOrder.
- Resync.Resyncer.TryOnce: does not state the clock value after a retry's wait, only that the spacing invariant holds and which error was retried.
- ValorantApi.AgentEntry: accepts only the catalogue's own keys. The source's lookup on a plain object also accepts the inherited key "constructor"; only ValorantApi.AgentEntryAsWritten models that (see Findings).
- ValorantApi.GetMatchAgents: builds its entries with the catalogue-only check of ValorantApi.AgentEntry, so an entry with the key "constructor" is never returned.
- ValorantApi.AgentEntriesValid: states the catalogue-only check, not the inherited-key case of the source.
- ValorantApi.GetMatchAgents and ValorantApi.GetRecentMatches: a body that is not JSON, a schema failure and a `TypeError` while reading the players are one error, `MalformedBody`. It does not carry the message text the JavaScript engine would give.

## Findings

| source | as written | input that shows it | evidently intended | confidence | as-written member | corrected member |
|---|---|---|---|---|---|---|
| app/services/valorant_api_service.ts:140 | `!AGENT_LOOKUP[agentKey]` reads a plain object, so the inherited `constructor` property passes the check | a player with a name and tag whose character is "Constructor" | only agents of the catalogue are kept | medium; not executed | ValorantApi.ConstructorKept | ValorantApi.AgentEntry |
| app/controllers/players_controller.ts:53-62 | `store` reads the roster flag and tracker name from the validator's output, which keeps only the five declared fields | a create form with the roster box ticked and the tracker name "Ann#EU1" | the flag and the tracker name are stored as submitted | medium; not executed | PlayersController.CreateDropsRosterFlag | PlayersController.StoreFieldsAsSubmitted |
| app/controllers/players_controller.ts:118-132 | `update` reads the roster flag, tracker name and agents from the same reduced output, so every edit clears them | an edit that submits the roster box, "A#B" and the agents ["jett", "jett"] | the submitted flag, tracker name and agents are kept | medium; not executed | PlayersController.EditClearsProfile | PlayersController.UpdatedAsSubmitted |

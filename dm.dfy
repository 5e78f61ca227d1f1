/** The Discord direct-message sender used by the player-data nudge. The
    two Discord API calls (open a DM channel, post a message) go through a
    `respond` oracle; the model returns the result record together with the
    requests made, so "no call" and "no message posted" can be stated. */
module DiscordDm {
  import opened Wrappers
  import opened Json
  import Text

  /** Environment: the bot token, APP_URL, whether NODE_ENV is 'test', and DISCORD_DM_TEST_MODE. */
  datatype Config = Config(botToken: Option<string>, appUrl: Option<string>, testEnv: bool, testMode: Option<string>)

  datatype NudgeInput = NudgeInput(
    discordUserId: string,
    playerId: int,
    playerName: string,
    missingAvailability: bool,
    missingAgents: bool)

  datatype DmResult = DmResult(ok: bool, externalMessageId: Option<string>, errorCode: Option<string>, errorMessage: Option<string>)

  datatype Request = CreateChannel(recipientId: string) | PostMessage(channelId: string, content: string)

  /** An HTTP response: status, status text, body text, and the body read as
      JSON (an error message where `json()` would throw). */
  datatype Response = Response(status: nat, statusText: string, text: string, json: Result<Json, string>)

  /** What a `fetch` does: respond, or throw (with a message when it is an Error). */
  datatype Outcome = Responded(response: Response) | Threw(message: Option<string>)

  datatype DmAttempt = DmAttempt(result: DmResult, requests: seq<Request>)

  /** `response.ok`. */
  predicate IsOk(status: nat) {
    200 <= status <= 299
  }

  /** `buildAppLink`: the path itself without APP_URL, else APP_URL minus one trailing '/' plus the path. */
  function BuildAppLink(appUrl: Option<string>, path: string): (r: string)
    ensures !Truthy(appUrl) ==> r == path
    ensures Truthy(appUrl) && Text.EndsWith(appUrl.value, "/") ==> r == appUrl.value[..|appUrl.value| - 1] + path
    ensures Truthy(appUrl) && !Text.EndsWith(appUrl.value, "/") ==> r == appUrl.value + path
  {
    if !Truthy(appUrl) then path
    else
      var u := appUrl.value;
      (if u[|u| - 1] == '/' then u[..|u| - 1] else u) + path
  }

  function Greeting(playerName: string): string {
    "Hey " + playerName + ", quick admin" + " reminder to" + " complete" + " your team data:"
  }

  function AvailabilityTask(appUrl: Option<string>): string {
    "- Set availability: " + BuildAppLink(appUrl, "/availability")
  }

  function AgentsTask(appUrl: Option<string>): string {
    "- Update agent preferences: " + BuildAppLink(appUrl, "/settings/profile")
  }

  /** The lines of the DM: greeting, blank, whichever tasks apply, blank, "Thanks.". */
  function MessageLines(appUrl: Option<string>, input: NudgeInput): (lines: seq<string>)
    ensures 4 <= |lines| <= 6
    ensures lines[0] == Greeting(input.playerName) && lines[1] == ""
    ensures lines[|lines| - 2..] == ["", "Thanks."]
  {
    var tasks := (if input.missingAvailability then [AvailabilityTask(appUrl)] else [])
      + (if input.missingAgents then [AgentsTask(appUrl)] else []);
    [Greeting(input.playerName), ""] + tasks + ["", "Thanks."]
  }

  /** A link holds a newline only when APP_URL or the path does. */
  lemma LinkNoNewline(appUrl: Option<string>, path: string)
    requires '\n' !in path && (appUrl.Some? ==> '\n' !in appUrl.value)
    ensures '\n' !in BuildAppLink(appUrl, path)
  {
    if Truthy(appUrl) && Text.EndsWith(appUrl.value, "/") {
      var u := appUrl.value;
      assert forall i :: 0 <= i < |u| - 1 ==> u[..|u| - 1][i] == u[i];
    }
  }

  lemma GreetingNoNewline(playerName: string)
    requires '\n' !in playerName
    ensures '\n' !in Greeting(playerName)
  {
    assert '\n' !in ", quick admin" && '\n' !in " reminder to" && '\n' !in " complete" && '\n' !in " your team data:";
    assert '\n' !in "Hey ";
  }

  lemma TasksNoNewline(appUrl: Option<string>)
    requires appUrl.Some? ==> '\n' !in appUrl.value
    ensures '\n' !in AvailabilityTask(appUrl) && '\n' !in AgentsTask(appUrl)
  {
    LinkNoNewline(appUrl, "/availability");
    LinkNoNewline(appUrl, "/settings/profile");
    assert '\n' !in "- Set availability: " && '\n' !in "- Update agent preferences: ";
  }

  /** No line of the DM holds a newline unless the player name or APP_URL does. */
  lemma LinesNoNewline(appUrl: Option<string>, input: NudgeInput)
    requires '\n' !in input.playerName && (appUrl.Some? ==> '\n' !in appUrl.value)
    ensures forall k :: 0 <= k < |MessageLines(appUrl, input)| ==> '\n' !in MessageLines(appUrl, input)[k]
  {
    GreetingNoNewline(input.playerName);
    TasksNoNewline(appUrl);
    assert '\n' !in "Thanks." && '\n' !in "";
  }

  /** `buildMessage`: the lines joined with newlines. When neither the player
      name nor APP_URL holds a newline, the message splits back into exactly
      its lines. */
  function BuildMessage(appUrl: Option<string>, input: NudgeInput): (r: string)
    ensures '\n' !in input.playerName && (appUrl.Some? ==> '\n' !in appUrl.value) ==>
      Text.Split(r, '\n') == MessageLines(appUrl, input)
  {
    if '\n' !in input.playerName && (appUrl.Some? ==> '\n' !in appUrl.value) then
      LinesNoNewline(appUrl, input);
      Text.SplitJoin(MessageLines(appUrl, input), '\n');
      Text.Join(MessageLines(appUrl, input), "\n")
    else Text.Join(MessageLines(appUrl, input), "\n")
  }

  /** The availability task appears iff availability is missing, the agent task
      iff agents are missing, and when both appear availability comes first. */
  lemma MessageTasks(appUrl: Option<string>, input: NudgeInput)
    ensures AvailabilityTask(appUrl) in MessageLines(appUrl, input) <==> input.missingAvailability
    ensures AgentsTask(appUrl) in MessageLines(appUrl, input) <==> input.missingAgents
    ensures input.missingAvailability && input.missingAgents ==>
      MessageLines(appUrl, input)[2] == AvailabilityTask(appUrl) && MessageLines(appUrl, input)[3] == AgentsTask(appUrl)
  {
    var g, av, ag := Greeting(input.playerName), AvailabilityTask(appUrl), AgentsTask(appUrl);
    LinesDistinct(appUrl, input.playerName);
    FramedTasks(g, "Thanks.", av, ag, input.missingAvailability, input.missingAgents);
  }

  /** The two task lines differ from each other and from the fixed lines. */
  lemma LinesDistinct(appUrl: Option<string>, playerName: string)
    ensures var g, av, ag := Greeting(playerName), AvailabilityTask(appUrl), AgentsTask(appUrl);
      av != ag && av !in [g, "", "Thanks."] && ag !in [g, "", "Thanks."]
  {
    var g, av, ag := Greeting(playerName), AvailabilityTask(appUrl), AgentsTask(appUrl);
    assert av[0] == '-' && ag[0] == '-' && av[2] == 'S' && ag[2] == 'U' && g[0] == 'H';
    assert "Thanks."[0] == 'T';
  }

  /** Optional lines between a fixed head and tail: each is present exactly when chosen, in order. */
  lemma FramedTasks(g: string, thanks: string, av: string, ag: string, a: bool, b: bool)
    requires av != ag && av !in [g, "", thanks] && ag !in [g, "", thanks]
    ensures var lines := [g, ""] + (if a then [av] else []) + (if b then [ag] else []) + ["", thanks];
      (av in lines <==> a) && (ag in lines <==> b) && (a && b ==> lines[2] == av && lines[3] == ag)
  {
  }

  function Failure(code: string, message: string): (r: DmResult)
    ensures !r.ok && r.errorCode == Some(code)
  {
    DmResult(false, None, Some(code), Some(message))
  }

  /** In the test environment, every test mode except 'real' answers without calling Discord. */
  predicate TestShortCircuit(cfg: Config) {
    cfg.testEnv && cfg.testMode != Some("real")
  }

  function HttpErrorCode(prefix: string, status: nat): string {
    prefix + Text.NatToString(status)
  }

  function HttpFailure(prefix: string, r: Response): DmResult {
    Failure(HttpErrorCode(prefix, r.status), if r.text != "" then r.text else r.statusText)
  }

  /** The message of the TypeError thrown when a property is read from a null JSON body. */
  const NULL_ID_READ: string := "Cannot read properties of null (reading 'id')"

  function RequestFailed(message: Option<string>): DmResult {
    Failure("discord_dm_request_failed", message.GetOr("Unknown Discord DM error"))
  }

  /** The id member of a JSON body, when it is a string (`typeof json.id === 'string'`). */
  function StringId(body: Json): Option<string> {
    var id := Member(body, "id");
    if id.Some? && id.value.JStr? then Some(id.value.s) else None
  }

  /** `sendPlayerDataNudge`. */
  function SendPlayerDataNudge(cfg: Config, input: NudgeInput, respond: Request -> Outcome): (a: DmAttempt)
    ensures a.result.ok <==> a.result.errorCode.None?
    ensures |a.requests| <= 2
    ensures (TestShortCircuit(cfg) || !Truthy(cfg.botToken)) <==> a.requests == []
    ensures a.requests != [] ==> a.requests[0] == CreateChannel(input.discordUserId)
    ensures |a.requests| == 2 ==> a.requests[1].PostMessage? && a.requests[1].content == BuildMessage(cfg.appUrl, input)
    ensures !TestShortCircuit(cfg) && !Truthy(cfg.botToken) ==>
      a.result == Failure("discord_bot_token_missing", "Discord bot token is not configured")
    ensures a.result.ok && a.requests != [] ==> |a.requests| == 2
  {
    if cfg.testEnv && cfg.testMode == Some("fail") then
      DmAttempt(Failure("discord_dm_test_failure", "Forced failure in test mode"), [])
    else if cfg.testEnv && cfg.testMode == Some("bot_token_missing") then
      DmAttempt(Failure("discord_bot_token_missing", "Discord bot token is not configured"), [])
    else if cfg.testEnv && cfg.testMode == Some("forbidden") then
      DmAttempt(Failure("discord_dm_message_http_403", "Cannot send messages to this user"), [])
    else if TestShortCircuit(cfg) then
      DmAttempt(DmResult(true, Some("test-mode-message-id"), None, None), [])
    else if !Truthy(cfg.botToken) then
      DmAttempt(Failure("discord_bot_token_missing", "Discord bot token is not configured"), [])
    else
      var open := CreateChannel(input.discordUserId);
      match respond(open)
      case Threw(m) => DmAttempt(RequestFailed(m), [open])
      case Responded(channel) =>
        if !IsOk(channel.status) then DmAttempt(HttpFailure("discord_dm_channel_http_", channel), [open])
        else if channel.json.Err? then DmAttempt(RequestFailed(Some(channel.json.error)), [open])
        else if channel.json.value.JNull? then DmAttempt(RequestFailed(Some(NULL_ID_READ)), [open])
        else
          var channelId := StringId(channel.json.value);
          if channelId.None? || channelId.value == "" then
            DmAttempt(Failure("discord_dm_channel_missing_id", "Discord did not return a DM channel id"), [open])
          else
            var post := PostMessage(channelId.value, BuildMessage(cfg.appUrl, input));
            match respond(post)
            case Threw(m) => DmAttempt(RequestFailed(m), [open, post])
            case Responded(message) =>
              if !IsOk(message.status) then DmAttempt(HttpFailure("discord_dm_message_http_", message), [open, post])
              else if message.json.Err? then DmAttempt(RequestFailed(Some(message.json.error)), [open, post])
              else if message.json.value.JNull? then DmAttempt(RequestFailed(Some(NULL_ID_READ)), [open, post])
              else DmAttempt(DmResult(true, StringId(message.json.value), None, None), [open, post])
  }

  /** The forced outcomes of the test environment. */
  lemma TestModeOutcomes(cfg: Config, input: NudgeInput, respond: Request -> Outcome)
    requires cfg.testEnv
    ensures var r := SendPlayerDataNudge(cfg, input, respond).result;
      && (cfg.testMode == Some("fail") ==> r.errorCode == Some("discord_dm_test_failure"))
      && (cfg.testMode == Some("bot_token_missing") ==> r.errorCode == Some("discord_bot_token_missing"))
      && (cfg.testMode == Some("forbidden") ==> r.errorCode == Some("discord_dm_message_http_403"))
      && (cfg.testMode !in {Some("fail"), Some("bot_token_missing"), Some("forbidden"), Some("real")} ==>
            r.ok && r.externalMessageId == Some("test-mode-message-id"))
  {
  }

  /** A non-OK channel response gives `discord_dm_channel_http_<status>` and nothing is posted;
      a channel body without a non-empty string id gives `discord_dm_channel_missing_id`. */
  lemma ChannelFailures(cfg: Config, input: NudgeInput, respond: Request -> Outcome)
    requires !TestShortCircuit(cfg) && Truthy(cfg.botToken)
    requires respond(CreateChannel(input.discordUserId)).Responded?
    ensures var resp := respond(CreateChannel(input.discordUserId)).response;
      var a := SendPlayerDataNudge(cfg, input, respond);
      && (!IsOk(resp.status) ==>
            a.result.errorCode == Some("discord_dm_channel_http_" + Text.NatToString(resp.status)) && |a.requests| == 1)
      && (IsOk(resp.status) && resp.json.Ok? && !resp.json.value.JNull?
          && (StringId(resp.json.value).None? || StringId(resp.json.value) == Some("")) ==>
            a.result.errorCode == Some("discord_dm_channel_missing_id") && |a.requests| == 1)
  {
  }

  /** A non-OK message response gives `discord_dm_message_http_<status>`. */
  lemma MessageFailure(cfg: Config, input: NudgeInput, respond: Request -> Outcome, channelId: string)
    requires !TestShortCircuit(cfg) && Truthy(cfg.botToken)
    requires var open := respond(CreateChannel(input.discordUserId));
      open.Responded? && IsOk(open.response.status) && open.response.json.Ok?
      && !open.response.json.value.JNull? && StringId(open.response.json.value) == Some(channelId) && channelId != ""
    requires var post := respond(PostMessage(channelId, BuildMessage(cfg.appUrl, input)));
      post.Responded? && !IsOk(post.response.status)
    ensures var status := respond(PostMessage(channelId, BuildMessage(cfg.appUrl, input))).response.status;
      SendPlayerDataNudge(cfg, input, respond).result.errorCode == Some("discord_dm_message_http_" + Text.NatToString(status))
  {
  }

  /** Every error code is one of the fixed codes or an HTTP code with a status suffix. */
  ghost predicate KnownErrorCode(code: string) {
    code in {"discord_dm_test_failure", "discord_bot_token_missing", "discord_dm_channel_missing_id", "discord_dm_request_failed"}
    || (exists s: nat :: code == HttpErrorCode("discord_dm_channel_http_", s))
    || (exists s: nat :: code == HttpErrorCode("discord_dm_message_http_", s))
  }

  lemma ErrorCodesKnown(cfg: Config, input: NudgeInput, respond: Request -> Outcome)
    ensures var r := SendPlayerDataNudge(cfg, input, respond).result;
      r.errorCode.Some? ==> KnownErrorCode(r.errorCode.value)
  {
    ForbiddenCode();
  }

  /** The forced 'forbidden' code of the test environment is the HTTP code for status 403. */
  lemma ForbiddenCode()
    ensures "discord_dm_message_http_403" == HttpErrorCode("discord_dm_message_http_", 403)
  {
    assert Text.NatToString(403) == "403";
  }
}

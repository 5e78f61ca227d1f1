/** The Discord webhook reminder for an upcoming match: the payload (roster
    mentions and one embed whose fields are laid out around the match's
    optional opponent and map) and the boolean result of posting it. The
    webhook `fetch` is an oracle. */
module DiscordNotification {
  import opened Wrappers
  import opened Models
  import opened Tables
  import UserModel
  import DiscordDm
  import Text

  /** The reminder types this service renders: 24 hours and 1 hour ahead. */
  datatype ReminderType = In24h | In1h

  datatype Field = Field(name: string, value: string, inline: bool)

  datatype Embed = Embed(title: string, description: string, color: nat, fields: seq<Field>, timestamp: Option<string>)

  datatype Payload = Payload(content: Option<string>, embeds: seq<Embed>)

  /** A JSON POST of the payload to the webhook URL. */
  datatype Post = Post(url: string, payload: Payload)

  /** What the webhook `fetch` does: respond with a status, or throw. */
  datatype PostOutcome = Responded(status: nat) | Threw

  const BLUE: nat := 0x3498db
  const RED: nat := 0xe74c3c

  /** The users that are mentioned: on the roster and with a Discord id, in table order. */
  function RosterMembers(users: seq<UserModel.User>): seq<UserModel.User> {
    Filter(users, (u: UserModel.User) => u.isOnRoster && u.discordId.Some?)
  }

  function Mention(u: UserModel.User): string
    requires u.discordId.Some?
  {
    "<@" + u.discordId.value + ">"
  }

  /** One mention per member, in order. */
  function Mentions(members: seq<UserModel.User>): (r: seq<string>)
    requires forall i :: 0 <= i < |members| ==> members[i].discordId.Some?
    ensures |r| == |members|
    ensures forall i :: 0 <= i < |members| ==> r[i] == Mention(members[i])
  {
    if members == [] then [] else [Mention(members[0])] + Mentions(members[1..])
  }

  lemma RosterMembersLinked(users: seq<UserModel.User>)
    ensures forall i :: 0 <= i < |RosterMembers(users)| ==> RosterMembers(users)[i].discordId.Some?
  {
    forall i | 0 <= i < |RosterMembers(users)| ensures RosterMembers(users)[i].discordId.Some? {
      FilterMembers(users, (u: UserModel.User) => u.isOnRoster && u.discordId.Some?, RosterMembers(users)[i]);
    }
  }

  /** `content`: the mentions joined with spaces, or absent when that string is empty. */
  function Content(users: seq<UserModel.User>): (c: Option<string>)
  {
    RosterMembersLinked(users);
    var text := Text.Join(Mentions(RosterMembers(users)), " ");
    if text == "" then None else Some(text)
  }

  /** The content is absent exactly when no roster member has a Discord id,
      and otherwise starts with the first member's mention. */
  lemma ContentAbsent(users: seq<UserModel.User>)
    ensures Content(users).None? <==> forall u :: u in users ==> !(u.isOnRoster && u.discordId.Some?)
    ensures RosterMembers(users) != [] ==>
      RosterMembers(users)[0].discordId.Some?
      && Content(users).Some? && Text.StartsWith(Content(users).value, Mention(RosterMembers(users)[0]))
  {
    RosterMembersLinked(users);
    var members := RosterMembers(users);
    var parts := Mentions(members);
    if members != [] {
      FilterMembers(users, (u: UserModel.User) => u.isOnRoster && u.discordId.Some?, members[0]);
      var text := Text.Join(parts, " ");
      assert text[..|parts[0]|] == parts[0];
    } else {
      forall u | u in users ensures !(u.isOnRoster && u.discordId.Some?) {
        FilterMembers(users, (u: UserModel.User) => u.isOnRoster && u.discordId.Some?, u);
      }
    }
  }

  /** `Math.floor(scheduledAt.toSeconds())` in Discord's full date-time markup. */
  function DiscordTimestamp(scheduledAtMs: int): string {
    "<t:" + Text.IntToString(scheduledAtMs / 1000) + ":F>"
  }

  function TimeField(m: Match): Field {
    Field("Time", DiscordTimestamp(m.scheduledAtMs), true)
  }

  function TypeField(m: Match): (f: Field)
    ensures f.name == "Type" && f.inline
    ensures f.value == "Official" <==> m.matchType == "official"
    ensures f.value != "Official" ==> f.value == "Scrim"
  {
    Field("Type", if m.matchType == "official" then "Official" else "Scrim", true)
  }

  /** The layout of the embed fields: the opponent in front when there is
      one, then Time and Type, then the map at the end when there is one;
      every field is inline. */
  predicate FieldLayout(m: Match, fields: seq<Field>) {
    var lead := if Truthy(m.opponentName) then 1 else 0;
    |fields| == lead + 2 + (if Truthy(m.mapName) then 1 else 0)
    && fields[lead] == TimeField(m) && fields[lead + 1] == TypeField(m)
    && (fields[0].name == "Opponent" <==> Truthy(m.opponentName))
    && (Truthy(m.opponentName) ==> fields[0] == Field("Opponent", m.opponentName.value, true))
    && (fields[|fields| - 1].name == "Map" <==> Truthy(m.mapName))
    && (Truthy(m.mapName) ==> fields[|fields| - 1] == Field("Map", m.mapName.value, true))
    && (forall i :: 0 <= i < |fields| ==> fields[i].inline)
  }

  /** The layout leaves no freedom: one list of fields has it. */
  lemma FieldLayoutUnique(m: Match, a: seq<Field>, b: seq<Field>)
    requires FieldLayout(m, a) && FieldLayout(m, b)
    ensures a == b
  {
    var lead := if Truthy(m.opponentName) then 1 else 0;
    forall i | 0 <= i < |a| ensures a[i] == b[i] {
      if i < lead {
        assert a[i] == b[i];
      } else if i == lead || i == lead + 1 {
        assert a[i] == b[i];
      } else {
        assert i == |a| - 1;
      }
    }
  }

  /** The embed fields, built as the service does: Time and Type, then the
      opponent put in front when there is one, then the map added at the end. */
  method BuildFields(m: Match) returns (fields: seq<Field>)
    ensures FieldLayout(m, fields)
  {
    fields := [TimeField(m), TypeField(m)];
    if Truthy(m.opponentName) {
      fields := [Field("Opponent", m.opponentName.value, true)] + fields;
    }
    if Truthy(m.mapName) {
      fields := fields + [Field("Map", m.mapName.value, true)];
    }
  }

  /** `sendMatchReminder(match, type)`: without a webhook URL it returns false
      and posts nothing; otherwise it posts one payload and returns true
      exactly when the webhook answers with a 2xx status. */
  method SendMatchReminder(webhookUrl: Option<string>, users: seq<UserModel.User>, m: Match, t: ReminderType,
                           toIso: int -> Option<string>, post: Post -> PostOutcome)
    returns (ok: bool, posts: seq<Post>)
    ensures !Truthy(webhookUrl) ==> !ok && posts == []
    ensures Truthy(webhookUrl) ==>
      |posts| == 1 && posts[0].url == webhookUrl.value
      && posts[0].payload.content == Content(users)
      && |posts[0].payload.embeds| == 1
      && (ok <==> post(posts[0]).Responded? && DiscordDm.IsOk(post(posts[0]).status))
    ensures Truthy(webhookUrl) ==>
      var e := posts[0].payload.embeds[0];
      e.title == (if t == In24h then "Match in 24 hours!" else "Match in 1 hour!")
      && e.color == (if t == In24h then BLUE else RED)
      && e.description == "Get ready for your upcoming " + m.matchType + " match!"
      && e.timestamp == toIso(m.scheduledAtMs)
      && FieldLayout(m, e.fields)
  {
    if !Truthy(webhookUrl) {
      return false, [];
    }
    var title := if t == In24h then "Match in 24 hours!" else "Match in 1 hour!";
    var color := if t == In24h then BLUE else RED;
    var fields := BuildFields(m);
    var embed := Embed(title, "Get ready for your upcoming " + m.matchType + " match!", color, fields, toIso(m.scheduledAtMs));
    var request := Post(webhookUrl.value, Payload(Content(users), [embed]));
    posts := [request];
    match post(request)
    case Threw =>
      ok := false;
    case Responded(status) =>
      ok := DiscordDm.IsOk(status);
  }
}

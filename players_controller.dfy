/** The players admin pages: the field rules of create and update, the
    availability grid shown to admins, and the nudge button's tone. */
module PlayersController {
  import opened Wrappers
  import opened Models
  import opened Tables
  import opened Forms
  import Timezone
  import UserModel
  import AvailabilityController
  import PlayerNudge

  // ------------------------------------------------------------------ agent list

  /** `Array.from(new Set(agents))`: each key once, at its first occurrence. */
  function Dedup(s: seq<string>): (r: seq<string>)
    ensures |r| <= |s|
    ensures forall x :: x in r <==> x in s
    ensures forall i, j :: 0 <= i < j < |r| ==> r[i] != r[j]
    decreases |s|
  {
    if s == [] then []
    else
      var d := Dedup(s[..|s| - 1]);
      var x := s[|s| - 1];
      assert forall y :: y in s <==> y in s[..|s| - 1] || y == x by {
        assert s == s[..|s| - 1] + [x];
      }
      if x in d then d else d + [x]
  }

  /** The position of the first occurrence of `x`. */
  function FirstPos(s: seq<string>, x: string): (i: nat)
    requires x in s
    ensures i < |s| && s[i] == x && x !in s[..i]
  {
    if s[0] == x then 0 else 1 + FirstPos(s[1..], x)
  }

  /** Appending an element does not move the first occurrence of one already there. */
  lemma {:induction false} FirstPosAppend(s: seq<string>, y: string, x: string)
    requires x in s
    ensures FirstPos(s + [y], x) == FirstPos(s, x)
  {
    if s[0] != x {
      assert (s + [y])[1..] == s[1..] + [y];
      FirstPosAppend(s[1..], y, x);
    }
  }

  /** The kept keys appear in the order of their first occurrences. */
  lemma {:induction false} DedupFirstOccurrenceOrder(s: seq<string>)
    ensures forall i, j :: 0 <= i < j < |Dedup(s)| ==> FirstPos(s, Dedup(s)[i]) < FirstPos(s, Dedup(s)[j])
    decreases |s|
  {
    if s != [] {
      var init := s[..|s| - 1];
      var x := s[|s| - 1];
      assert s == init + [x];
      DedupFirstOccurrenceOrder(init);
      var d := Dedup(init);
      forall k | 0 <= k < |d| ensures FirstPos(s, d[k]) == FirstPos(init, d[k]) {
        FirstPosAppend(init, x, d[k]);
      }
      if x !in d {
        assert x !in init;
        assert FirstPos(s, x) == |s| - 1;
      }
    }
  }

  // ------------------------------------------------------------------ store and update

  /** The request body of create and update as the form submits it:
      `agents`, `isOnRoster` and `trackerggUsername` are sent alongside the
      five fields the validators declare. */
  datatype PlayerForm = PlayerForm(
    fullName: string,
    email: string,
    password: Option<string>,
    role: string,
    timezone: Timezone.Zone,
    trackerggUsername: Option<string>,
    isOnRoster: FormValue,
    agents: Option<seq<string>>)

  /** What `createPlayerValidator` and `updatePlayerValidator` return. The
      validators declare fullName, email, password, role and timezone, and
      VineJS drops every property an object schema does not declare, so the
      other three read as undefined in the controller. */
  function Validated(data: PlayerForm): PlayerForm {
    data.(trackerggUsername := None, isOnRoster := FOther, agents := None)
  }

  /** The columns `store` creates a player with (a new account has no logo unless one is uploaded). */
  datatype NewPlayer = NewPlayer(fullName: string, email: string, password: string, role: string,
                                 timezone: Timezone.Zone, trackerggUsername: Option<string>, isOnRoster: bool)

  /** The column values `store` would give when it reads the submitted
      roster flag and tracker name. */
  function StoreFieldsAsSubmitted(data: PlayerForm): (r: NewPlayer)
    ensures r.fullName == data.fullName && r.email == data.email && r.role == data.role && r.timezone == data.timezone
    ensures r.isOnRoster == ToBoolean(data.isOnRoster)
    ensures r.trackerggUsername.None? <==> !Truthy(data.trackerggUsername)
    ensures r.trackerggUsername.Some? ==> r.trackerggUsername == data.trackerggUsername
  {
    NewPlayer(data.fullName, data.email, data.password.GetOr(""), data.role, data.timezone,
              if Truthy(data.trackerggUsername) then data.trackerggUsername else None,
              ToBoolean(data.isOnRoster))
  }

  /** `store`'s column values, read from the validator's output: the declared
      fields as submitted, and a new player who is never on the roster and
      has no tracker name, whatever the form sent. */
  function StoreFields(data: PlayerForm): (r: NewPlayer)
    ensures r.fullName == data.fullName && r.email == data.email && r.role == data.role && r.timezone == data.timezone
    ensures r.password == data.password.GetOr("")
    ensures !r.isOnRoster && r.trackerggUsername.None?
  {
    StoreFieldsAsSubmitted(Validated(data))
  }

  /** A create that ticks the roster box and names a tracker account stores
      neither, while reading the submitted values would store both. */
  lemma CreateDropsRosterFlag()
    ensures var data := PlayerForm("Ann", "ann@example.com", Some("password1"), "player", Timezone.Fixed(0),
                                   Some("Ann#EU1"), FStr("on"), None);
      !StoreFields(data).isOnRoster && StoreFields(data).trackerggUsername.None?
      && StoreFieldsAsSubmitted(data).isOnRoster && StoreFieldsAsSubmitted(data).trackerggUsername == Some("Ann#EU1")
  {
  }

  /** The player and password that `update` would give when it reads the
      submitted roster flag, tracker name and agent list. */
  function UpdatedAsSubmitted(player: UserModel.User, password: string, data: PlayerForm): (r: (UserModel.User, string))
    ensures r.0.id == player.id && r.0.discordId == player.discordId && r.0.discordUsername == player.discordUsername
      && r.0.approvalStatus == player.approvalStatus && r.0.logoFilename == player.logoFilename
    ensures r.0.fullName == Some(data.fullName) && r.0.email == data.email && r.0.role == data.role
      && r.0.timezone == data.timezone
    ensures r.0.isOnRoster == ToBoolean(data.isOnRoster)
    ensures r.0.trackerggUsername.None? <==> !Truthy(data.trackerggUsername)
    ensures r.0.trackerggUsername.Some? ==> r.0.trackerggUsername == data.trackerggUsername
    ensures forall i, j :: 0 <= i < j < |r.0.agentPrefs| ==> r.0.agentPrefs[i] != r.0.agentPrefs[j]
    ensures forall a :: a in r.0.agentPrefs <==> data.agents.Some? && a in data.agents.value
    ensures r.1 != password ==> Truthy(data.password) && r.1 == data.password.value
    ensures Truthy(data.password) ==> r.1 == data.password.value
  {
    var u := player.(fullName := Some(data.fullName), email := data.email, role := data.role, timezone := data.timezone,
                     trackerggUsername := if Truthy(data.trackerggUsername) then data.trackerggUsername else None,
                     isOnRoster := ToBoolean(data.isOnRoster),
                     agentPrefs := Dedup(data.agents.GetOr([])));
    (u, if Truthy(data.password) then data.password.value else password)
  }

  /** `update`: the player and password after the field assignments, read from
      the validator's output. The declared fields take the submitted values,
      the password changes only when a new one is given, and every edit takes
      the player off the roster and clears the tracker name and the agent
      preferences. */
  function Updated(player: UserModel.User, password: string, data: PlayerForm): (r: (UserModel.User, string))
    ensures r.0.id == player.id && r.0.discordId == player.discordId && r.0.discordUsername == player.discordUsername
      && r.0.approvalStatus == player.approvalStatus && r.0.logoFilename == player.logoFilename
    ensures r.0.fullName == Some(data.fullName) && r.0.email == data.email && r.0.role == data.role
      && r.0.timezone == data.timezone
    ensures !r.0.isOnRoster && r.0.trackerggUsername.None? && r.0.agentPrefs == []
    ensures r.1 != password ==> Truthy(data.password) && r.1 == data.password.value
    ensures Truthy(data.password) ==> r.1 == data.password.value
  {
    UpdatedAsSubmitted(player, password, Validated(data))
  }

  /** `update` for a player id: an id no user has answers 404 before the
      form is read; otherwise the found player is updated. `password` is that
      player's stored password. */
  function UpdateById(users: seq<UserModel.User>, id: int, password: string, data: PlayerForm): (r: Option<(UserModel.User, string)>)
    ensures r.None? <==> forall u :: u in users ==> u.id != id
    ensures r.Some? ==> r.value.0.id == id
    ensures r.Some? ==> exists p :: p in users && p.id == id && r.value == Updated(p, password, data)
  {
    var found := Find(users, id, UserModel.UserId);
    if found.None? then None else Some(Updated(found.value, password, data))
  }

  /** An edit that keeps the player on the roster, with a tracker name and a
      repeated agent, clears all three, while reading the submitted values
      would keep them (the agent once). */
  lemma EditClearsProfile(player: UserModel.User, password: string)
    ensures var data := PlayerForm("Ann", "ann@example.com", None, "player", Timezone.Fixed(0),
                                   Some("A#B"), FStr("on"), Some(["jett", "jett"]));
      var (asWritten, _) := Updated(player, password, data);
      var (intended, _) := UpdatedAsSubmitted(player, password, data);
      !asWritten.isOnRoster && asWritten.trackerggUsername.None? && asWritten.agentPrefs == []
      && intended.isOnRoster && intended.trackerggUsername == Some("A#B") && intended.agentPrefs == ["jett"]
  {
    var agents := ["jett", "jett"];
    assert agents[..1] == ["jett"] && agents[..1][..0] == [];
  }

  // ------------------------------------------------------------------ show

  /** `show`'s grid: built from the player's own zone and slots, and only for an admin viewer. */
  method ShowGrid(viewer: Option<UserModel.User>, player: UserModel.User, slotRows: seq<(SlotKey, bool)>)
    returns (grid: Option<seq<AvailabilityController.GridDay>>, hours: Option<seq<int>>)
    ensures grid.None? <==> !(viewer.Some? && UserModel.IsAdmin(viewer.value))
    ensures hours.None? <==> grid.None?
    ensures grid.Some? ==>
      AvailabilityController.IsGrid(grid.value, player.timezone, AvailabilityController.AvailableSlots(slotRows, player.id))
      && hours.value == AvailabilityController.HeaderHours()
  {
    if viewer.Some? && UserModel.IsAdmin(viewer.value) {
      var g := AvailabilityController.BuildGrid(player.timezone, AvailabilityController.AvailableSlots(slotRows, player.id));
      grid, hours := Some(g), Some(AvailabilityController.HeaderHours());
    } else {
      grid, hours := None, None;
    }
  }

  /** What `show` renders: the player, and the grid and hour header for an admin viewer. */
  datatype ShowPage = ShowPage(player: UserModel.User, grid: Option<seq<AvailabilityController.GridDay>>, hours: Option<seq<int>>)

  /** `show` for a player id: an id no user has answers 404; otherwise the
      page shows the found player and that player's grid. */
  method Show(viewer: Option<UserModel.User>, users: seq<UserModel.User>, id: int, slotRows: seq<(SlotKey, bool)>)
    returns (page: Option<ShowPage>)
    ensures page.None? <==> forall u :: u in users ==> u.id != id
    ensures page.Some? ==> page.value.player in users && page.value.player.id == id
    ensures page.Some? ==> (page.value.grid.None? <==> !(viewer.Some? && UserModel.IsAdmin(viewer.value)))
    ensures page.Some? ==> (page.value.hours.None? <==> page.value.grid.None?)
    ensures page.Some? && page.value.grid.Some? ==>
      AvailabilityController.IsGrid(page.value.grid.value, page.value.player.timezone,
                                    AvailabilityController.AvailableSlots(slotRows, id))
      && page.value.hours.value == AvailabilityController.HeaderHours()
  {
    var found := Find(users, id, UserModel.UserId);
    if found.None? {
      return None;
    }
    var grid, hours := ShowGrid(viewer, found.value, slotRows);
    page := Some(ShowPage(found.value, grid, hours));
  }

  // ------------------------------------------------------------------ nudge

  datatype Tone = ToneSuccess | ToneWarning | ToneError

  /** The colour of the nudge message. */
  function NudgeTone(status: NudgeStatus): (t: Tone)
    ensures t == ToneSuccess <==> status == Sent
    ensures t == ToneWarning <==> status == Blocked
    ensures t == ToneError <==> status == Failed
  {
    match status
    case Sent => ToneSuccess
    case Blocked => ToneWarning
    case Failed => ToneError
  }

  datatype NudgeControls = NudgeControls(message: string, tone: Tone, disabled: bool, flash: Flash)

  /** What `nudge` shows for an outcome: the button is disabled exactly when
      the attempt was blocked; the flash is a success exactly when it was sent. */
  function Controls(outcome: PlayerNudge.PlayerNudgeOutcome): (c: NudgeControls)
    ensures c.message == outcome.message && c.flash.message == outcome.message
    ensures c.disabled <==> outcome.status == Blocked
    ensures c.flash.kind == FlashSuccess <==> outcome.status == Sent
    ensures c.tone == NudgeTone(outcome.status)
  {
    NudgeControls(outcome.message, NudgeTone(outcome.status), outcome.status == Blocked,
                  Flash(if outcome.status == Sent then FlashSuccess else FlashError, outcome.message))
  }

  /** `nudge`: one profile-data nudge attempt and its controls. */
  method Nudge(log: Table<PlayerNudgeRow>, svc: PlayerNudge.Services, admin: UserModel.User, target: UserModel.User,
               slots: seq<(SlotKey, bool)>, nowMs: int)
    returns (controls: NudgeControls)
    modifies log
    ensures var (row, o) := PlayerNudge.ProfileNudge(old(log.rows), svc, admin, target, slots, nowMs);
      log.rows == old(log.rows) + [row] && controls == Controls(o)
  {
    var outcome := PlayerNudge.SendProfileDataNudge(log, svc, admin, target, slots, nowMs);
    controls := Controls(outcome);
  }

  /** `nudge` for a player id: an id no user has answers 404 before the
      service runs, so no audit row is written. */
  method NudgeById(log: Table<PlayerNudgeRow>, svc: PlayerNudge.Services, admin: UserModel.User,
                   users: seq<UserModel.User>, id: int, slots: seq<(SlotKey, bool)>, nowMs: int)
    returns (controls: Option<NudgeControls>)
    modifies log
    ensures controls.None? <==> forall u :: u in users ==> u.id != id
    ensures controls.None? ==> log.rows == old(log.rows)
    ensures controls.Some? ==> var target := Find(users, id, UserModel.UserId).value;
      var (row, o) := PlayerNudge.ProfileNudge(old(log.rows), svc, admin, target, slots, nowMs);
      target in users && target.id == id && log.rows == old(log.rows) + [row] && controls.value == Controls(o)
  {
    var found := Find(users, id, UserModel.UserId);
    if found.None? {
      return None;
    }
    var c := Nudge(log, svc, admin, found.value, slots, nowMs);
    controls := Some(c);
  }
}

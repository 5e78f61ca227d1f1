/** The user model: its columns, the role and approval getters, the
    `agentPrefs` column codec and the derived profile links. */
module UserModel {
  import opened Wrappers
  import opened Json
  import Timezone
  import Text

  datatype User = User(
    id: int,
    fullName: Option<string>,
    email: string,
    role: string,
    timezone: Timezone.Zone,
    logoFilename: Option<string>,
    trackerggUsername: Option<string>,
    isOnRoster: bool,
    discordId: Option<string>,
    discordUsername: Option<string>,
    approvalStatus: string,
    agentPrefs: seq<string>)

  /** The primary key. */
  function UserId(u: User): int { u.id }

  predicate IsAdmin(u: User) { u.role == "admin" }
  predicate IsPending(u: User) { u.approvalStatus == "pending" }
  predicate IsApproved(u: User) { u.approvalStatus == "approved" }
  predicate IsRejected(u: User) { u.approvalStatus == "rejected" }

  /** For each of the three approval states exactly one getter holds, and none
      holds for any other stored value. */
  lemma ApprovalGettersExclusive(u: User)
    ensures u.approvalStatus in {"approved", "pending", "rejected"} <==>
      (IsApproved(u) || IsPending(u) || IsRejected(u))
    ensures !(IsApproved(u) && IsPending(u)) && !(IsApproved(u) && IsRejected(u)) && !(IsPending(u) && IsRejected(u))
  {
  }

  /** The only members of a parsed array kept by `parseAgentPrefs`: the strings, in order. */
  function StringItems(items: seq<Json>): (r: seq<string>)
    ensures |r| <= |items|
    ensures forall i :: 0 <= i < |items| && items[i].JStr? ==> items[i].s in r
    ensures forall s :: s in r ==> JStr(s) in items
  {
    if items == [] then []
    else (if items[0].JStr? then [items[0].s] else []) + StringItems(items[1..])
  }

  /** `filter` keeps order and repeats: the strings of a concatenation are
      the strings of each part, one after the other. */
  lemma {:induction false} StringItemsAppend(a: seq<Json>, b: seq<Json>)
    ensures StringItems(a + b) == StringItems(a) + StringItems(b)
  {
    if a == [] {
      assert a + b == b;
    } else {
      assert (a + b)[1..] == a[1..] + b;
      StringItemsAppend(a[1..], b);
    }
  }

  /** One element is kept exactly when it is a string. */
  lemma StringItemsSingle(j: Json)
    ensures StringItems([j]) == (if j.JStr? then [j.s] else [])
  {
    assert [j][1..] == [];
  }

  /** `parseAgentPrefs`: [] for a null or empty column, text that is not JSON,
      or JSON that is not an array; otherwise the string elements in order. */
  function ParseAgentPrefs(value: Option<string>, json: JsonText): (r: seq<string>)
    ensures !Truthy(value) ==> r == []
    ensures Truthy(value) && (json.parse(value.value).None? || !json.parse(value.value).value.JArr?) ==> r == []
    ensures Truthy(value) && json.parse(value.value).Some? && json.parse(value.value).value.JArr? ==>
      r == StringItems(json.parse(value.value).value.items)
  {
    if !Truthy(value) then []
    else
      var parsed := json.parse(value.value);
      if parsed.Some? && parsed.value.JArr? then StringItems(parsed.value.items) else []
  }

  /** The `prepare` side of the column: the JSON of the list, null stored as []. */
  function PrepareAgentPrefs(value: Option<seq<string>>, json: JsonText): string {
    json.stringify(StringArray(value.GetOr([])))
  }

  lemma {:induction false} StringItemsOfStrings(items: seq<string>)
    ensures StringItems(StringArray(items).items) == items
  {
    if items != [] {
      var js := StringArray(items).items;
      StringItemsOfStrings(items[1..]);
      assert js[1..] == StringArray(items[1..]).items;
    }
  }

  /** Storing a list and reading it back gives the same list (and [] for null). */
  lemma AgentPrefsRoundTrip(value: Option<seq<string>>, json: JsonText)
    requires RoundTrips(json)
    ensures ParseAgentPrefs(Some(PrepareAgentPrefs(value, json)), json) == value.GetOr([])
  {
    StringItemsOfStrings(value.GetOr([]));
  }

  const TRACKER_PROFILE := "https://tracker.gg/valorant/profile/riot/"

  /** `trackerggUrl`, with `encodeURIComponent` as `encodeComponent`. */
  function TrackerggUrl(u: User, encodeComponent: string -> string): (r: Option<string>)
    ensures r.None? <==> !Truthy(u.trackerggUsername)
    ensures r.Some? ==> r.value == TRACKER_PROFILE + encodeComponent(u.trackerggUsername.value)
  {
    if !Truthy(u.trackerggUsername) then None
    else Some(TRACKER_PROFILE + encodeComponent(u.trackerggUsername.value))
  }

  /** With an injective encoding, two players share a profile link only when
      they share a tracker name. */
  lemma TrackerggUrlInjective(u: User, v: User, encodeComponent: string -> string)
    requires forall a, b :: encodeComponent(a) == encodeComponent(b) ==> a == b
    requires TrackerggUrl(u, encodeComponent).Some? && TrackerggUrl(u, encodeComponent) == TrackerggUrl(v, encodeComponent)
    ensures u.trackerggUsername == v.trackerggUsername
  {
    var x, y := encodeComponent(u.trackerggUsername.value), encodeComponent(v.trackerggUsername.value);
    assert (TRACKER_PROFILE + x)[|TRACKER_PROFILE|..] == x;
    assert (TRACKER_PROFILE + y)[|TRACKER_PROFILE|..] == y;
  }

  /** `logoUrl`: the public path of the uploaded logo. */
  function LogoUrl(u: User): (r: Option<string>)
    ensures r.None? <==> !Truthy(u.logoFilename)
    ensures r.Some? ==> r.value == "/uploads/players/" + u.logoFilename.value
  {
    if !Truthy(u.logoFilename) then None else Some("/uploads/players/" + u.logoFilename.value)
  }
}

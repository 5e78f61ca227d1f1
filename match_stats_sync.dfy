/** Syncing the stats of one Valorant match into a match: the snapshot's
    players become the match's synced-player rows, the roster players among
    them its agent rows, and the snapshot's map its Valorant map. The
    snapshot request is an oracle. */
module MatchStatsSync {
  import opened Wrappers
  import opened Models
  import opened Tables
  import UserModel
  import Text
  import ValorantApi
  import SyncedPlayersOrder

  /** A player of a match stats snapshot. */
  datatype SnapshotPlayer = SnapshotPlayer(
    riotId: string,
    playerName: string,
    playerTag: Option<string>,
    team: Option<string>,
    agentKey: Option<string>,
    kills: Option<int>,
    deaths: Option<int>,
    assists: Option<int>,
    score: Option<int>,
    headshots: Option<int>,
    bodyshots: Option<int>,
    legshots: Option<int>)

  datatype Snapshot = Snapshot(mapName: Option<string>, players: seq<SnapshotPlayer>)

  datatype SyncCounts = SyncCounts(rosterAgentRows: nat, syncedPlayersRows: nat)

  // ------------------------------------------------------------------ Riot-ID map

  /** The map a loop builds by writing `id(u)` under each present `key(u)`
      in order: a later element with the same key overwrites an earlier one. */
  function KeyMap<U>(s: seq<U>, key: U -> Option<string>, id: U -> int): map<string, int>
    decreases |s|
  {
    if s == [] then map[]
    else
      var k := key(s[|s| - 1]);
      var before := KeyMap(s[..|s| - 1], key, id);
      if k.Some? then before[k.value := id(s[|s| - 1])] else before
  }

  /** The keys of the map are the keys of the set the same elements give. */
  lemma {:induction false} KeyMapDomain<U>(s: seq<U>, key: U -> Option<string>, id: U -> int)
    ensures KeyMap(s, key, id).Keys == SyncedPlayersOrder.KeySet(s, key)
    decreases |s|
  {
    if s != [] {
      KeyMapDomain(s[..|s| - 1], key, id);
    }
  }

  /** The last element with a key wins it. */
  lemma {:induction false} KeyMapLastWins<U>(s: seq<U>, key: U -> Option<string>, id: U -> int, i: nat, k: string)
    requires i < |s| && key(s[i]) == Some(k)
    requires forall j :: i < j < |s| ==> key(s[j]) != Some(k)
    ensures k in KeyMap(s, key, id) && KeyMap(s, key, id)[k] == id(s[i])
    decreases |s|
  {
    var init := s[..|s| - 1];
    if i < |s| - 1 {
      assert init[i] == s[i];
      assert forall j :: i < j < |init| ==> init[j] == s[j];
      KeyMapLastWins(init, key, id, i, k);
      assert key(s[|s| - 1]) != Some(k);
    }
  }

  /** The `riotIdToUserId` map: Riot-ID key to user id. */
  function RiotIdMap(users: seq<UserModel.User>): map<string, int> {
    KeyMap(users, SyncedPlayersOrder.KnownKey, UserModel.UserId)
  }

  /** The `riotIdToUserId` loop. */
  method BuildRiotIdMap(users: seq<UserModel.User>) returns (ids: map<string, int>)
    ensures ids == RiotIdMap(users)
  {
    ids := map[];
    var i := 0;
    while i < |users|
      invariant 0 <= i <= |users|
      invariant ids == RiotIdMap(users[..i])
    {
      assert users[..i + 1][..i] == users[..i];
      var key := SyncedPlayersOrder.KnownKey(users[i]);
      if key.Some? {
        ids := ids[key.value := users[i].id];
      }
      i := i + 1;
    }
    assert users[..i] == users;
  }

  /** The map has an entry exactly for the Riot IDs the app knows. */
  lemma RiotIdMapKeys(users: seq<UserModel.User>)
    ensures RiotIdMap(users).Keys == SyncedPlayersOrder.KnownIds(users)
  {
    KeyMapDomain(users, SyncedPlayersOrder.KnownKey, UserModel.UserId);
  }

  /** Of several users with the same Riot ID, the last one is mapped. */
  lemma RiotIdMapLastWins(users: seq<UserModel.User>, i: nat, k: string)
    requires i < |users| && SyncedPlayersOrder.KnownKey(users[i]) == Some(k)
    requires forall j :: i < j < |users| ==> SyncedPlayersOrder.KnownKey(users[j]) != Some(k)
    ensures k in RiotIdMap(users) && RiotIdMap(users)[k] == users[i].id
  {
    KeyMapLastWins(users, SyncedPlayersOrder.KnownKey, UserModel.UserId, i, k);
  }

  // ------------------------------------------------------------------ records

  /** The agent row of one snapshot player: only for a player whose Riot ID
      maps to a user (id not 0) and who has an agent. */
  function AgentRecord(matchId: int, ids: map<string, int>, e: SnapshotPlayer): (r: Option<MatchPlayerAgentRow>)
    ensures r.Some? <==> e.riotId in ids && ids[e.riotId] != 0 && Truthy(e.agentKey)
    ensures r.Some? ==> r.value == MatchPlayerAgentRow(matchId, ids[e.riotId], e.agentKey.value, e.kills, e.deaths, e.assists)
  {
    if e.riotId !in ids || ids[e.riotId] == 0 then None
    else if !Truthy(e.agentKey) then None
    else Some(MatchPlayerAgentRow(matchId, ids[e.riotId], e.agentKey.value, e.kills, e.deaths, e.assists))
  }

  function RosterAgentRecords(matchId: int, ids: map<string, int>, players: seq<SnapshotPlayer>): (r: seq<MatchPlayerAgentRow>)
    ensures |r| <= |players|
    ensures forall i :: 0 <= i < |r| ==> r[i].matchId == matchId
  {
    var records := FilterMap(players, (e: SnapshotPlayer) => AgentRecord(matchId, ids, e));
    forall i | 0 <= i < |records| ensures records[i].matchId == matchId {
      FilterMapMembers(players, (e: SnapshotPlayer) => AgentRecord(matchId, ids, e), records[i]);
    }
    records
  }

  /** The synced-player row of one snapshot player. */
  function SyncedRecord(matchId: int, e: SnapshotPlayer): MatchSyncedPlayerRow {
    MatchSyncedPlayerRow(matchId, e.riotId, e.playerName, e.playerTag, e.team, e.agentKey,
                         e.kills, e.deaths, e.assists, e.score, e.headshots, e.bodyshots, e.legshots)
  }

  /** One synced-player row per snapshot player, in order. */
  function SyncedRecords(matchId: int, players: seq<SnapshotPlayer>): (r: seq<MatchSyncedPlayerRow>)
    ensures |r| == |players|
    ensures forall i :: 0 <= i < |r| ==>
      (r[i].matchId == matchId && r[i].riotId == players[i].riotId
       && r[i].playerName == players[i].playerName && r[i].team == players[i].team && r[i].score == players[i].score)
  {
    seq(|players|, i requires 0 <= i < |players| => SyncedRecord(matchId, players[i]))
  }

  /** Every agent row belongs to a player that also has a synced-player row
      with the same agent, so there are never more agent rows. */
  lemma AgentRowsFromSyncedRows(matchId: int, ids: map<string, int>, players: seq<SnapshotPlayer>, row: MatchPlayerAgentRow)
    requires row in RosterAgentRecords(matchId, ids, players)
    ensures exists i :: (0 <= i < |players| && players[i].riotId in ids && ids[players[i].riotId] == row.userId
      && SyncedRecords(matchId, players)[i].agentKey == Some(row.agentKey))
  {
    var f := (e: SnapshotPlayer) => AgentRecord(matchId, ids, e);
    FilterMapMembers(players, f, row);
    var e :| e in players && f(e) == Some(row);
    var i :| 0 <= i < |players| && players[i] == e;
    assert SyncedRecords(matchId, players)[i] == SyncedRecord(matchId, e);
  }

  /** The rows of one match. */
  function OfMatch<R>(matchId: int, idOf: R -> int): R -> bool {
    r => idOf(r) == matchId
  }

  function AgentMatchId(r: MatchPlayerAgentRow): int { r.matchId }

  function SyncedMatchId(r: MatchSyncedPlayerRow): int { r.matchId }

  // ------------------------------------------------------------------ sync

  /** `syncFromValorantMatchId`. The explicit id wins over the stored one; with
      neither the sync fails before any request. Both tables lose their rows
      of this match and gain the new records; the match's Valorant map is set
      only when the snapshot has one. */
  method SyncFromValorantMatchId(m: Match, valorantMatchId: Option<string>, snapshotOf: string -> Result<Snapshot, string>,
                                 users: seq<UserModel.User>,
                                 agentRows: Table<MatchPlayerAgentRow>, syncedRows: Table<MatchSyncedPlayerRow>)
    returns (r: Result<SyncCounts, string>, updated: Match)
    modifies agentRows, syncedRows
    ensures !Truthy(valorantMatchId) && !Truthy(m.valorantMatchId) ==>
      r == Err("Match #" + Text.IntToString(m.id) + " does not have a stored Valorant match id")
    ensures r.Ok? ==> r.value.rosterAgentRows <= r.value.syncedPlayersRows
    ensures r.Err? ==> updated == m && agentRows.rows == old(agentRows.rows) && syncedRows.rows == old(syncedRows.rows)
    ensures r.Ok? ==>
      var target := if Truthy(valorantMatchId) then valorantMatchId.value else m.valorantMatchId.value;
      snapshotOf(target).Ok? &&
      var snapshot := snapshotOf(target).value;
      var roster := RosterAgentRecords(m.id, RiotIdMap(users), snapshot.players);
      var synced := SyncedRecords(m.id, snapshot.players);
      agentRows.rows == Filter(old(agentRows.rows), Not(OfMatch(m.id, AgentMatchId))) + roster
      && syncedRows.rows == Filter(old(syncedRows.rows), Not(OfMatch(m.id, SyncedMatchId))) + synced
      && r.value == SyncCounts(|roster|, |synced|)
      && updated == (if Truthy(snapshot.mapName) then m.(valorantMap := snapshot.mapName) else m)
  {
    updated := m;
    var target: string;
    if Truthy(valorantMatchId) {
      target := valorantMatchId.value;
    } else if Truthy(m.valorantMatchId) {
      target := m.valorantMatchId.value;
    } else {
      r := Err("Match #" + Text.IntToString(m.id) + " does not have a stored Valorant match id");
      return;
    }
    var fetched := snapshotOf(target);
    if fetched.Err? {
      r := Err(fetched.error);
      return;
    }
    var snapshot := fetched.value;
    var ids := BuildRiotIdMap(users);
    var roster := RosterAgentRecords(m.id, ids, snapshot.players);
    var synced := SyncedRecords(m.id, snapshot.players);
    var _ := agentRows.DeleteWhere(OfMatch(m.id, AgentMatchId));
    var _ := syncedRows.DeleteWhere(OfMatch(m.id, SyncedMatchId));
    if |roster| > 0 {
      agentRows.InsertMany(roster);
    }
    if |synced| > 0 {
      syncedRows.InsertMany(synced);
    }
    if Truthy(snapshot.mapName) {
      updated := m.(valorantMap := snapshot.mapName);
    }
    r := Ok(SyncCounts(|roster|, |synced|));
  }

  /** After a sync, the agent rows of the match are exactly the new records
      and the rows of every other match are as they were. */
  lemma AgentRowsReplaced(before: seq<MatchPlayerAgentRow>, matchId: int, roster: seq<MatchPlayerAgentRow>)
    requires forall i :: 0 <= i < |roster| ==> roster[i].matchId == matchId
    ensures var after := Filter(before, Not(OfMatch(matchId, AgentMatchId))) + roster;
      Filter(after, OfMatch(matchId, AgentMatchId)) == roster
      && Filter(after, Not(OfMatch(matchId, AgentMatchId))) == Filter(before, Not(OfMatch(matchId, AgentMatchId)))
  {
    forall k | 0 <= k < |roster| ensures OfMatch(matchId, AgentMatchId)(roster[k]) {
      assert AgentMatchId(roster[k]) == matchId;
    }
    ReplaceWhere(before, OfMatch(matchId, AgentMatchId), roster);
  }

  /** The same for the synced-player rows. */
  lemma SyncedRowsReplaced(before: seq<MatchSyncedPlayerRow>, matchId: int, synced: seq<MatchSyncedPlayerRow>)
    requires forall i :: 0 <= i < |synced| ==> synced[i].matchId == matchId
    ensures var after := Filter(before, Not(OfMatch(matchId, SyncedMatchId))) + synced;
      Filter(after, OfMatch(matchId, SyncedMatchId)) == synced
      && Filter(after, Not(OfMatch(matchId, SyncedMatchId))) == Filter(before, Not(OfMatch(matchId, SyncedMatchId)))
  {
    forall k | 0 <= k < |synced| ensures OfMatch(matchId, SyncedMatchId)(synced[k]) {
      assert SyncedMatchId(synced[k]) == matchId;
    }
    ReplaceWhere(before, OfMatch(matchId, SyncedMatchId), synced);
  }

  /** Syncing the same snapshot twice leaves the same rows as syncing it once. */
  lemma SyncTwiceSameRows(before: seq<MatchSyncedPlayerRow>, matchId: int, synced: seq<MatchSyncedPlayerRow>)
    requires forall i :: 0 <= i < |synced| ==> synced[i].matchId == matchId
    ensures var once := Filter(before, Not(OfMatch(matchId, SyncedMatchId))) + synced;
      Filter(once, Not(OfMatch(matchId, SyncedMatchId))) + synced == once
  {
    forall k | 0 <= k < |synced| ensures OfMatch(matchId, SyncedMatchId)(synced[k]) {
      assert SyncedMatchId(synced[k]) == matchId;
    }
    ReplaceWhere(before, OfMatch(matchId, SyncedMatchId), synced);
  }
}

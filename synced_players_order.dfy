/** The order in which the synced players of a match are shown: the Riot IDs
    the app knows, the team most of them played on, and a comparator sort by
    team, score, kills and name. */
module SyncedPlayersOrder {
  import opened Wrappers
  import opened Models
  import UserModel
  import opened ValorantApi

  // ------------------------------------------------------------------ known Riot IDs

  /** The lookup key of a user's tracker username, when it parses as a Riot ID. */
  function KnownKey(u: UserModel.User): (k: Option<string>)
    ensures k.Some? <==> u.trackerggUsername.Some? && ParseRiotId(u.trackerggUsername.value).Some?
  {
    if u.trackerggUsername.None? then None
    else
      var parsed := ParseRiotId(u.trackerggUsername.value);
      if parsed.None? then None else Some(RiotKey(parsed.value))
  }

  /** The present keys `key` gives the elements of s, as a loop collects them. */
  function KeySet<U>(s: seq<U>, key: U -> Option<string>): set<string>
    decreases |s|
  {
    if s == [] then {}
    else
      var k := key(s[|s| - 1]);
      KeySet(s[..|s| - 1], key) + (if k.Some? then {k.value} else {})
  }

  /** A key is in the set exactly when some element gives it. */
  lemma {:induction false} KeySetMembers<U>(s: seq<U>, key: U -> Option<string>, k: string)
    ensures k in KeySet(s, key) <==> exists u :: u in s && key(u) == Some(k)
    decreases |s|
  {
    if s != [] {
      var init := s[..|s| - 1];
      KeySetMembers(init, key, k);
      assert s == init + [s[|s| - 1]];
      if exists u :: u in s && key(u) == Some(k) {
        var u :| u in s && key(u) == Some(k);
        if u != s[|s| - 1] {
          assert u in init;
        }
      }
    }
  }

  /** The keys of the users, as `getKnownRiotIds` collects them. */
  function KnownIds(users: seq<UserModel.User>): set<string> {
    KeySet(users, KnownKey)
  }

  /** A key is known exactly when some user's tracker username parses to it. */
  lemma KnownIdsMembers(users: seq<UserModel.User>, k: string)
    ensures k in KnownIds(users) <==> exists u :: u in users && KnownKey(u) == Some(k)
  {
    KeySetMembers(users, KnownKey, k);
  }

  /** `getKnownRiotIds` over the users with a tracker username. */
  method GetKnownRiotIds(users: seq<UserModel.User>) returns (ids: set<string>)
    ensures ids == KnownIds(users)
  {
    ids := {};
    var i := 0;
    while i < |users|
      invariant 0 <= i <= |users|
      invariant ids == KnownIds(users[..i])
    {
      assert users[..i + 1][..i] == users[..i];
      var key := KnownKey(users[i]);
      if key.Some? {
        ids := ids + {key.value};
      }
      i := i + 1;
    }
    assert users[..i] == users;
  }

  // ------------------------------------------------------------------ our team

  /** A player the count looks at: a known Riot ID on the Red or Blue team. */
  predicate Counted(p: MatchSyncedPlayerRow, known: set<string>) {
    p.riotId in known && p.team.Some? && (p.team.value == "Red" || p.team.value == "Blue")
  }

  function TeamName(t: Team): string {
    if t == Red then "Red" else "Blue"
  }

  /** The number of counted players on team t. */
  function CountTeam(s: seq<MatchSyncedPlayerRow>, known: set<string>, t: Team): nat
    decreases |s|
  {
    if s == [] then 0
    else
      var p := s[|s| - 1];
      CountTeam(s[..|s| - 1], known, t) + (if Counted(p, known) && p.team.value == TeamName(t) then 1 else 0)
  }

  /** The team of the first counted player. */
  function FirstKnownTeam(s: seq<MatchSyncedPlayerRow>, known: set<string>): Option<Team>
    decreases |s|
  {
    if s == [] then None
    else
      var before := FirstKnownTeam(s[..|s| - 1], known);
      var p := s[|s| - 1];
      if before.Some? then before
      else if Counted(p, known) then Some(if p.team.value == "Red" then Red else Blue)
      else None
  }

  /** The team with more known players; on a tie, the first known player's team. */
  function OurTeam(s: seq<MatchSyncedPlayerRow>, known: set<string>): Option<Team> {
    var red := CountTeam(s, known, Red);
    var blue := CountTeam(s, known, Blue);
    if red == 0 && blue == 0 then None
    else if red > blue then Some(Red)
    else if blue > red then Some(Blue)
    else FirstKnownTeam(s, known)
  }

  /** `determineOurTeam`: one pass counting both teams and noting the first known team. */
  method DetermineOurTeam(players: seq<MatchSyncedPlayerRow>, known: set<string>) returns (team: Option<Team>)
    ensures team == OurTeam(players, known)
  {
    var redCount, blueCount := 0, 0;
    var firstKnownTeam: Option<Team> := None;
    var i := 0;
    while i < |players|
      invariant 0 <= i <= |players|
      invariant redCount == CountTeam(players[..i], known, Red)
      invariant blueCount == CountTeam(players[..i], known, Blue)
      invariant firstKnownTeam == FirstKnownTeam(players[..i], known)
    {
      assert players[..i + 1][..i] == players[..i];
      var p := players[i];
      if p.riotId in known && p.team.Some? && (p.team.value == "Red" || p.team.value == "Blue") {
        if firstKnownTeam.None? {
          firstKnownTeam := Some(if p.team.value == "Red" then Red else Blue);
        }
        if p.team.value == "Red" {
          redCount := redCount + 1;
        }
        if p.team.value == "Blue" {
          blueCount := blueCount + 1;
        }
      }
      i := i + 1;
    }
    assert players[..i] == players;
    if redCount == 0 && blueCount == 0 {
      return None;
    }
    if redCount > blueCount {
      return Some(Red);
    }
    if blueCount > redCount {
      return Some(Blue);
    }
    return firstKnownTeam;
  }

  /** There is a first known team exactly when some player is counted, and
      the counts are then not both zero. */
  lemma {:induction false} FirstKnownExists(s: seq<MatchSyncedPlayerRow>, known: set<string>)
    ensures FirstKnownTeam(s, known).Some? <==> exists i :: 0 <= i < |s| && Counted(s[i], known)
    ensures FirstKnownTeam(s, known).Some? <==> CountTeam(s, known, Red) + CountTeam(s, known, Blue) > 0
    decreases |s|
  {
    if s != [] {
      var init := s[..|s| - 1];
      FirstKnownExists(init, known);
      if exists i :: 0 <= i < |init| && Counted(init[i], known) {
        var i :| 0 <= i < |init| && Counted(init[i], known);
        assert s[i] == init[i];
      }
      if exists i :: 0 <= i < |s| && Counted(s[i], known) {
        var i :| 0 <= i < |s| && Counted(s[i], known);
        if i < |init| {
          assert init[i] == s[i];
        }
      }
    }
  }

  /** The first known team is the team of a counted player with no counted player before it. */
  lemma {:induction false} FirstKnownIsFirst(s: seq<MatchSyncedPlayerRow>, known: set<string>)
    requires FirstKnownTeam(s, known).Some?
    ensures exists i ::
      (0 <= i < |s| && Counted(s[i], known) && s[i].team == Some(TeamName(FirstKnownTeam(s, known).value))
       && forall j :: 0 <= j < i ==> !Counted(s[j], known))
    decreases |s|
  {
    var init := s[..|s| - 1];
    var t := FirstKnownTeam(s, known).value;
    if FirstKnownTeam(init, known).Some? {
      FirstKnownIsFirst(init, known);
      var i :| 0 <= i < |init| && Counted(init[i], known) && init[i].team == Some(TeamName(t))
        && forall j :: 0 <= j < i ==> !Counted(init[j], known);
      assert s[i] == init[i];
      assert forall j :: 0 <= j < i ==> s[j] == init[j];
    } else {
      FirstKnownExists(init, known);
      var i := |s| - 1;
      assert forall j :: 0 <= j < i ==> s[j] == init[j];
      assert Counted(s[i], known) && s[i].team == Some(TeamName(t));
    }
  }

  /** No team is ours exactly when no known player is on Red or Blue; otherwise
      our team has at least as many known players as the other. */
  lemma OurTeamCases(s: seq<MatchSyncedPlayerRow>, known: set<string>)
    ensures OurTeam(s, known).None? <==> forall i :: 0 <= i < |s| ==> !Counted(s[i], known)
    ensures OurTeam(s, known) == Some(Red) ==> CountTeam(s, known, Red) >= CountTeam(s, known, Blue)
    ensures OurTeam(s, known) == Some(Blue) ==> CountTeam(s, known, Blue) >= CountTeam(s, known, Red)
  {
    FirstKnownExists(s, known);
  }

  // ------------------------------------------------------------------ sort

  /** `getTeamRank`. */
  function TeamRank(team: Option<string>, ourTeam: Option<Team>): (r: int)
    ensures 0 <= r <= 2
    ensures ourTeam.Some? ==> (r == 0 <==> team == Some(TeamName(ourTeam.value)))
    ensures ourTeam.Some? ==> (r == 1 <==> team == Some(TeamName(if ourTeam.value == Red then Blue else Red)))
    ensures ourTeam.None? ==> (r == 0 <==> team == Some("Red")) && (r == 1 <==> team == Some("Blue"))
  {
    if ourTeam == Some(Red) then
      (if team == Some("Red") then 0 else if team == Some("Blue") then 1 else 2)
    else if ourTeam == Some(Blue) then
      (if team == Some("Blue") then 0 else if team == Some("Red") then 1 else 2)
    else
      (if team == Some("Red") then 0 else if team == Some("Blue") then 1 else 2)
  }

  /** With no team known, the ranks are those of Red being ours. */
  lemma RankWithoutTeam(team: Option<string>)
    ensures TeamRank(team, None) == TeamRank(team, Some(Red))
  {
  }

  /** Lexicographic comparison of names by character code. */
  function NameCompare(a: string, b: string): (r: int)
    ensures -1 <= r <= 1
    ensures r == 0 <==> a == b
  {
    if a == [] && b == [] then 0
    else if a == [] then -1
    else if b == [] then 1
    else if a[0] < b[0] then -1
    else if a[0] > b[0] then 1
    else
      var rest := NameCompare(a[1..], b[1..]);
      assert rest == 0 ==> a == [a[0]] + a[1..] == [b[0]] + b[1..] == b;
      rest
  }

  lemma {:induction false} NameCompareAntisymmetric(a: string, b: string)
    ensures NameCompare(b, a) == -NameCompare(a, b)
  {
    if a != [] && b != [] && a[0] == b[0] {
      NameCompareAntisymmetric(a[1..], b[1..]);
    }
  }

  /** Names in comparator order are transitive. */
  lemma {:induction false} NameCompareTransitive(a: string, b: string, c: string)
    requires NameCompare(a, b) <= 0 && NameCompare(b, c) <= 0
    ensures NameCompare(a, c) <= 0
  {
    if a != [] && c != [] && a[0] == b[0] && b[0] == c[0] {
      NameCompareTransitive(a[1..], b[1..], c[1..]);
    }
  }

  /** The order `sortPlayers` promises, read off the keys: our team first,
      then the higher score, then more kills (a missing value counting as
      -1), then the player name. */
  predicate KeyOrder(a: MatchSyncedPlayerRow, b: MatchSyncedPlayerRow, ourTeam: Option<Team>) {
    var rankA, rankB := TeamRank(a.team, ourTeam), TeamRank(b.team, ourTeam);
    var scoreA, scoreB := a.score.GetOr(-1), b.score.GetOr(-1);
    var killsA, killsB := a.kills.GetOr(-1), b.kills.GetOr(-1);
    rankA < rankB
    || (rankA == rankB && scoreA > scoreB)
    || (rankA == rankB && scoreA == scoreB && killsA > killsB)
    || (rankA == rankB && scoreA == scoreB && killsA == killsB && NameCompare(a.playerName, b.playerName) <= 0)
  }

  /** The key order is transitive. */
  lemma KeyOrderTransitive(a: MatchSyncedPlayerRow, b: MatchSyncedPlayerRow, c: MatchSyncedPlayerRow, ourTeam: Option<Team>)
    requires KeyOrder(a, b, ourTeam) && KeyOrder(b, c, ourTeam)
    ensures KeyOrder(a, c, ourTeam)
  {
    if TeamRank(a.team, ourTeam) == TeamRank(c.team, ourTeam) && a.score.GetOr(-1) == c.score.GetOr(-1)
       && a.kills.GetOr(-1) == c.kills.GetOr(-1) {
      NameCompareTransitive(a.playerName, b.playerName, c.playerName);
    }
  }

  /** The comparator of `sortPlayers`: team rank ascending, then score and
      kills descending (a missing value counting as -1), then the player name. */
  function Compare(a: MatchSyncedPlayerRow, b: MatchSyncedPlayerRow, ourTeam: Option<Team>): (r: int)
    ensures r == 0 <==>
      TeamRank(a.team, ourTeam) == TeamRank(b.team, ourTeam) && a.score.GetOr(-1) == b.score.GetOr(-1)
      && a.kills.GetOr(-1) == b.kills.GetOr(-1) && a.playerName == b.playerName
    ensures r <= 0 <==> KeyOrder(a, b, ourTeam)
    ensures TeamRank(a.team, ourTeam) != TeamRank(b.team, ourTeam) ==>
      (r < 0 <==> TeamRank(a.team, ourTeam) < TeamRank(b.team, ourTeam))
    ensures TeamRank(a.team, ourTeam) == TeamRank(b.team, ourTeam) && a.score.GetOr(-1) != b.score.GetOr(-1) ==>
      (r < 0 <==> a.score.GetOr(-1) > b.score.GetOr(-1))
    ensures (TeamRank(a.team, ourTeam) == TeamRank(b.team, ourTeam) && a.score.GetOr(-1) == b.score.GetOr(-1)
             && a.kills.GetOr(-1) != b.kills.GetOr(-1)) ==> (r < 0 <==> a.kills.GetOr(-1) > b.kills.GetOr(-1))
  {
    var rankDiff := TeamRank(a.team, ourTeam) - TeamRank(b.team, ourTeam);
    if rankDiff != 0 then rankDiff
    else
      var scoreA, scoreB := a.score.GetOr(-1), b.score.GetOr(-1);
      if scoreA != scoreB then scoreB - scoreA
      else
        var killsA, killsB := a.kills.GetOr(-1), b.kills.GetOr(-1);
        if killsA != killsB then killsB - killsA
        else NameCompare(a.playerName, b.playerName)
  }

  /** Swapping the arguments negates the comparison. */
  lemma CompareAntisymmetric(a: MatchSyncedPlayerRow, b: MatchSyncedPlayerRow, ourTeam: Option<Team>)
    ensures Compare(b, a, ourTeam) == -Compare(a, b, ourTeam)
  {
    NameCompareAntisymmetric(a.playerName, b.playerName);
  }

  /** Neighbours are in comparator order. */
  predicate Sorted(s: seq<MatchSyncedPlayerRow>, ourTeam: Option<Team>) {
    forall i :: 0 <= i < |s| - 1 ==> Compare(s[i], s[i + 1], ourTeam) <= 0
  }

  /** Inserts x before the first row it does not come after. */
  function InsertSorted(x: MatchSyncedPlayerRow, s: seq<MatchSyncedPlayerRow>, ourTeam: Option<Team>): (r: seq<MatchSyncedPlayerRow>)
    ensures multiset(r) == multiset(s) + multiset{x}
    ensures |r| == |s| + 1 && (r[0] == x || (s != [] && r[0] == s[0]))
  {
    if s == [] then [x]
    else if Compare(x, s[0], ourTeam) <= 0 then [x] + s
    else
      assert s == [s[0]] + s[1..];
      [s[0]] + InsertSorted(x, s[1..], ourTeam)
  }

  /** Inserting into a sorted list keeps it sorted. */
  lemma {:induction false} InsertKeepsSorted(x: MatchSyncedPlayerRow, s: seq<MatchSyncedPlayerRow>, ourTeam: Option<Team>)
    requires Sorted(s, ourTeam)
    ensures Sorted(InsertSorted(x, s, ourTeam), ourTeam)
  {
    if s != [] && Compare(x, s[0], ourTeam) > 0 {
      var rest := InsertSorted(x, s[1..], ourTeam);
      InsertKeepsSorted(x, s[1..], ourTeam);
      CompareAntisymmetric(x, s[0], ourTeam);
      var r := [s[0]] + rest;
      assert r == InsertSorted(x, s, ourTeam);
      assert Compare(s[0], rest[0], ourTeam) <= 0;
      forall i | 1 <= i < |r| - 1 ensures Compare(r[i], r[i + 1], ourTeam) <= 0 {
        assert r[i] == rest[i - 1] && r[i + 1] == rest[i];
      }
    }
  }

  /** `sortPlayers`: a sorted copy, holding the same players. */
  function SortPlayers(s: seq<MatchSyncedPlayerRow>, ourTeam: Option<Team>): (r: seq<MatchSyncedPlayerRow>)
    ensures multiset(r) == multiset(s) && |r| == |s|
    ensures Sorted(r, ourTeam)
  {
    if s == [] then []
    else
      assert s == [s[0]] + s[1..];
      var rest := SortPlayers(s[1..], ourTeam);
      InsertKeepsSorted(s[0], rest, ourTeam);
      InsertSorted(s[0], rest, ourTeam)
  }

  /** In a list sorted by neighbours, every earlier row comes no later in the
      key order than every later one. */
  lemma {:induction false} SortedPairs(s: seq<MatchSyncedPlayerRow>, ourTeam: Option<Team>, i: nat, j: nat)
    requires Sorted(s, ourTeam) && i < j < |s|
    ensures KeyOrder(s[i], s[j], ourTeam)
    decreases j - i
  {
    assert Compare(s[j - 1], s[j], ourTeam) <= 0;
    if i < j - 1 {
      SortedPairs(s, ourTeam, i, j - 1);
      KeyOrderTransitive(s[i], s[j - 1], s[j], ourTeam);
    }
  }

  /** The order of the sorted list, for any two positions: team rank never
      goes down; within a rank the score never goes up; within a rank and
      score the kills never go up; and rows equal on all three keys are in
      name order. */
  lemma SortOrder(s: seq<MatchSyncedPlayerRow>, ourTeam: Option<Team>, i: nat, j: nat)
    requires i < j < |s|
    ensures var r := SortPlayers(s, ourTeam);
      TeamRank(r[i].team, ourTeam) <= TeamRank(r[j].team, ourTeam)
    ensures var r := SortPlayers(s, ourTeam);
      TeamRank(r[i].team, ourTeam) == TeamRank(r[j].team, ourTeam) ==> r[i].score.GetOr(-1) >= r[j].score.GetOr(-1)
    ensures var r := SortPlayers(s, ourTeam);
      TeamRank(r[i].team, ourTeam) == TeamRank(r[j].team, ourTeam) && r[i].score.GetOr(-1) == r[j].score.GetOr(-1) ==>
      r[i].kills.GetOr(-1) >= r[j].kills.GetOr(-1)
    ensures var r := SortPlayers(s, ourTeam);
      (TeamRank(r[i].team, ourTeam) == TeamRank(r[j].team, ourTeam) && r[i].score.GetOr(-1) == r[j].score.GetOr(-1)
       && r[i].kills.GetOr(-1) == r[j].kills.GetOr(-1)) ==> NameCompare(r[i].playerName, r[j].playerName) <= 0
  {
    SortedPairs(SortPlayers(s, ourTeam), ourTeam, i, j);
  }

  /** Our team's players come before the other team's, anywhere in the sorted list. */
  lemma OurTeamFirst(s: seq<MatchSyncedPlayerRow>, ourTeam: Option<Team>, i: nat, j: nat)
    requires i < j < |s|
    ensures TeamRank(SortPlayers(s, ourTeam)[i].team, ourTeam) <= TeamRank(SortPlayers(s, ourTeam)[j].team, ourTeam)
  {
    SortOrder(s, ourTeam, i, j);
  }
}

/** The Valorant API service: Riot-ID parsing, classification of a match
    returned by the Henrik API, score orientation and result, agent-name
    normalisation, and the two response mappings (the agents of one match and
    the recent matches of one player). The HTTP requests are an oracle from
    URL to response. */
module ValorantApi {
  import opened Wrappers
  import opened Json
  import Text
  import Tables
  import Agents

  // ------------------------------------------------------------------ Riot IDs

  datatype RiotId = RiotId(name: string, tag: string)

  /** `parseRiotId`: exactly one '#' splits the name from the tag, both trimmed. */
  function ParseRiotId(s: string): (r: Option<RiotId>)
    ensures r.Some? <==> Text.Count(s, '#') == 1
  {
    var parts := Text.Split(s, '#');
    Text.SplitShape(s, '#');
    if |parts| != 2 then None else Some(RiotId(Text.Trim(parts[0]), Text.Trim(parts[1])))
  }

  /** A name and a tag joined by '#' parse back to the trimmed name and tag. */
  lemma ParseRiotIdJoin(name: string, tag: string)
    requires '#' !in name && '#' !in tag
    ensures ParseRiotId(name + "#" + tag) == Some(RiotId(Text.Trim(name), Text.Trim(tag)))
  {
    Text.SplitTwo(name, '#', tag);
  }

  /** The lookup key of a Riot ID: "name#tag" in lower case. */
  function RiotKey(id: RiotId): (k: string)
    ensures |k| == |id.name| + 1 + |id.tag| && k[|id.name|] == '#'
  {
    Text.Lower(id.name + "#" + id.tag)
  }

  // ------------------------------------------------------------------ match payload

  /** A player of a validated Henrik match. */
  datatype HenrikPlayer = HenrikPlayer(puuid: string, name: string, tag: string, team: string)

  /** A team's rounds; None where the payload has null. */
  datatype HenrikTeam = HenrikTeam(roundsWon: Option<int>, roundsLost: Option<int>)

  datatype PremierInfo = PremierInfo(tournamentId: Option<string>, matchupId: Option<string>)

  datatype Metadata = Metadata(
    matchid: string,
    mapName: string,
    gameStartPatched: string,
    mode: string,
    modeId: Option<string>,
    queue: Option<string>,
    premierInfo: Option<PremierInfo>,
    region: string)

  /** A match as the response schema validates it. */
  datatype HenrikMatch = HenrikMatch(metadata: Metadata, red: HenrikTeam, blue: HenrikTeam, allPlayers: seq<HenrikPlayer>)

  function OrEmpty(s: Option<string>): string {
    if s.Some? then s.value else ""
  }

  // ------------------------------------------------------------------ match type

  datatype MatchType = Premier | Custom | Other

  datatype TypeInfo = TypeInfo(matchType: MatchType, typeLabel: Option<string>)

  /** The match belongs to a Premier tournament or matchup. */
  predicate InPremier(m: Metadata) {
    m.premierInfo.Some? && (Truthy(m.premierInfo.value.tournamentId) || Truthy(m.premierInfo.value.matchupId))
  }

  /** The queue, the mode or the mode id names `word`, ignoring case. */
  predicate Mentions(m: Metadata, word: string) {
    Text.Contains(Text.Lower(OrEmpty(m.queue)), word)
    || Text.Contains(Text.Lower(m.mode), word)
    || Text.Contains(Text.Lower(OrEmpty(m.modeId)), word)
  }

  /** `getMatchType`: Premier by tournament data or by name, then Custom by
      name, else Other; the label is the type's name, none for Other. */
  function GetMatchType(hm: HenrikMatch): (r: TypeInfo)
    ensures r.matchType == Premier <==> InPremier(hm.metadata) || Mentions(hm.metadata, "premier")
    ensures r.matchType == Custom <==> !InPremier(hm.metadata) && !Mentions(hm.metadata, "premier") && Mentions(hm.metadata, "custom")
    ensures r.typeLabel.None? <==> r.matchType == Other
    ensures r.matchType == Premier ==> r.typeLabel == Some("Premier")
    ensures r.matchType == Custom ==> r.typeLabel == Some("Custom")
  {
    if InPremier(hm.metadata) then TypeInfo(Premier, Some("Premier"))
    else if Mentions(hm.metadata, "premier") then TypeInfo(Premier, Some("Premier"))
    else if Mentions(hm.metadata, "custom") then TypeInfo(Custom, Some("Custom"))
    else TypeInfo(Other, None)
  }

  /** Lower-casing twice is lower-casing once. */
  lemma LowerIdempotent(s: string)
    ensures Text.Lower(Text.Lower(s)) == Text.Lower(s)
  {
    var once := Text.Lower(s);
    forall i | 0 <= i < |s| ensures Text.Lower(once)[i] == once[i] {
      assert Text.LowerChar(Text.LowerChar(s[i])) == Text.LowerChar(s[i]);
    }
  }

  /** Lower-cases the queue, the mode and the mode id. */
  function LowerNames(m: Metadata): (r: Metadata)
    ensures r.matchid == m.matchid && r.premierInfo == m.premierInfo
  {
    m.(queue := if m.queue.Some? then Some(Text.Lower(m.queue.value)) else None,
       mode := Text.Lower(m.mode),
       modeId := if m.modeId.Some? then Some(Text.Lower(m.modeId.value)) else None)
  }

  /** The classification ignores the case of the queue, mode and mode id. */
  lemma MatchTypeIgnoresCase(hm: HenrikMatch)
    ensures GetMatchType(hm.(metadata := LowerNames(hm.metadata))) == GetMatchType(hm)
  {
    LowerIdempotent(OrEmpty(hm.metadata.queue));
    LowerIdempotent(hm.metadata.mode);
    LowerIdempotent(OrEmpty(hm.metadata.modeId));
  }

  // ------------------------------------------------------------------ team and score

  datatype Team = Red | Blue

  /** The player the search is for, by name and tag, ignoring case. */
  predicate SamePlayer(p: HenrikPlayer, name: string, tag: string) {
    Text.Lower(p.name) == Text.Lower(name) && Text.Lower(p.tag) == Text.Lower(tag)
  }

  /** The index of the first player that `SamePlayer` matches (`Array.find`). */
  function FirstPlayer(players: seq<HenrikPlayer>, name: string, tag: string): (r: Option<nat>)
    ensures r.Some? ==> r.value < |players| && SamePlayer(players[r.value], name, tag)
    ensures r.Some? ==> forall j :: 0 <= j < r.value ==> !SamePlayer(players[j], name, tag)
    ensures r.None? ==> forall j :: 0 <= j < |players| ==> !SamePlayer(players[j], name, tag)
  {
    if players == [] then None
    else if SamePlayer(players[0], name, tag) then Some(0)
    else
      var rest := FirstPlayer(players[1..], name, tag);
      if rest.Some? then Some(rest.value + 1) else None
  }

  /** `findPlayerTeam`: the team of the first matching player, when it is Red or Blue. */
  function FindPlayerTeam(hm: HenrikMatch, name: string, tag: string): (r: Option<Team>)
    ensures r.Some? ==> exists i :: 0 <= i < |hm.allPlayers| && SamePlayer(hm.allPlayers[i], name, tag)
    ensures r == Some(Red) ==> exists i :: 0 <= i < |hm.allPlayers| && hm.allPlayers[i].team == "Red"
    ensures r == Some(Blue) ==> exists i :: 0 <= i < |hm.allPlayers| && hm.allPlayers[i].team == "Blue"
    ensures (forall i :: 0 <= i < |hm.allPlayers| ==> !SamePlayer(hm.allPlayers[i], name, tag)) ==> r.None?
  {
    var i := FirstPlayer(hm.allPlayers, name, tag);
    if i.None? then None
    else
      var team := hm.allPlayers[i.value].team;
      if team == "Red" then Some(Red) else if team == "Blue" then Some(Blue) else None
  }

  /** The first matching player decides: another player with the same name
      later in the list does not change the answer. */
  lemma FirstPlayerDecides(hm: HenrikMatch, name: string, tag: string, i: nat)
    requires i < |hm.allPlayers| && SamePlayer(hm.allPlayers[i], name, tag)
    requires forall j :: 0 <= j < i ==> !SamePlayer(hm.allPlayers[j], name, tag)
    ensures FindPlayerTeam(hm, name, tag) ==
      (if hm.allPlayers[i].team == "Red" then Some(Red)
       else if hm.allPlayers[i].team == "Blue" then Some(Blue) else None)
  {
    var k := FirstPlayer(hm.allPlayers, name, tag);
    assert k == Some(i);
  }

  datatype Score = Score(us: int, them: int)

  /** `calculateScores`: both teams' rounds must be numbers; ours come first. */
  function CalculateScores(hm: HenrikMatch, team: Team): (r: Option<Score>)
    ensures r.Some? <==> hm.red.roundsWon.Some? && hm.blue.roundsWon.Some?
    ensures r.Some? && team == Red ==> r.value == Score(hm.red.roundsWon.value, hm.blue.roundsWon.value)
    ensures r.Some? && team == Blue ==> r.value == Score(hm.blue.roundsWon.value, hm.red.roundsWon.value)
  {
    if hm.red.roundsWon.None? || hm.blue.roundsWon.None? then None
    else if team == Red then Some(Score(hm.red.roundsWon.value, hm.blue.roundsWon.value))
    else Some(Score(hm.blue.roundsWon.value, hm.red.roundsWon.value))
  }

  datatype Outcome = Win | Loss | Draw

  /** `determineResult`. */
  function DetermineResult(us: int, them: int): (r: Outcome)
    ensures r == Win <==> us > them
    ensures r == Loss <==> us < them
    ensures r == Draw <==> us == them
  {
    if us > them then Win else if us < them then Loss else Draw
  }

  function Opposite(o: Outcome): Outcome {
    match o
    case Win => Loss
    case Loss => Win
    case Draw => Draw
  }

  /** Seen from the other team, the scores swap and the result is the opposite one. */
  lemma OtherSideOpposite(hm: HenrikMatch)
    requires hm.red.roundsWon.Some? && hm.blue.roundsWon.Some?
    ensures var red := CalculateScores(hm, Red).value;
      var blue := CalculateScores(hm, Blue).value;
      red == Score(blue.them, blue.us) && DetermineResult(red.us, red.them) == Opposite(DetermineResult(blue.us, blue.them))
  {
  }

  // ------------------------------------------------------------------ agent keys

  /** A character of `[a-z0-9]`. */
  predicate IsKeyChar(c: char) {
    'a' <= c <= 'z' || '0' <= c <= '9'
  }

  /** The key characters of `s`, in order. */
  function KeyChars(s: string): (r: string)
    ensures forall i :: 0 <= i < |r| ==> IsKeyChar(r[i])
  {
    if s == [] then [] else (if IsKeyChar(s[0]) then [s[0]] else []) + KeyChars(s[1..])
  }

  /** Drops the run of non-key characters at the front of `s`. */
  function SkipRun(s: string): (r: string)
    ensures |r| <= |s| && r == s[|s| - |r|..]
    ensures r == [] || IsKeyChar(r[0])
  {
    if s != [] && !IsKeyChar(s[0]) then
      var r := SkipRun(s[1..]);
      assert s[1..][|s| - 1 - |r|..] == s[|s| - |r|..];
      r
    else s
  }

  /** What `SkipRun` drops holds no key character, so the key characters are kept. */
  lemma {:induction false} SkipRunDropsRun(s: string)
    ensures forall i :: 0 <= i < |s| - |SkipRun(s)| ==> !IsKeyChar(s[i])
    ensures KeyChars(SkipRun(s)) == KeyChars(s)
  {
    if s != [] && !IsKeyChar(s[0]) {
      SkipRunDropsRun(s[1..]);
      forall i | 1 <= i < |s| - |SkipRun(s)| ensures !IsKeyChar(s[i]) {
        assert s[i] == s[1..][i - 1];
      }
    }
  }

  /** Key characters and single dashes only. */
  predicate Dashed(r: string) {
    (forall i :: 0 <= i < |r| ==> IsKeyChar(r[i]) || r[i] == '-')
    && (forall i :: 0 <= i < |r| - 1 ==> r[i] == '-' ==> r[i + 1] != '-')
  }

  /** `replace(/[^a-z0-9]+/g, '-')`: every run of other characters becomes one
      dash. `DashifyKeepsKeys` says the key characters survive in order and
      `DashifySnoc` says where the dashes go. */
  function Dashify(s: string): (r: string)
    ensures Dashed(r)
    ensures r == [] <==> s == []
    ensures r != [] ==> (r[0] == '-' <==> !IsKeyChar(s[0]))
    decreases |s|
  {
    if s == [] then []
    else if IsKeyChar(s[0]) then
      var tail := Dashify(s[1..]);
      DashedPrepend(s[0], tail);
      [s[0]] + tail
    else
      var rest := SkipRun(s[1..]);
      var tail := Dashify(rest);
      assert tail == [] || tail[0] != '-';
      DashedPrepend('-', tail);
      "-" + tail
  }

  /** The key characters of `s` survive `Dashify` in order: only the other
      characters are replaced. */
  lemma {:induction false} DashifyKeepsKeys(s: string)
    ensures KeyChars(Dashify(s)) == KeyChars(s)
    decreases |s|
  {
    if s != [] {
      if IsKeyChar(s[0]) {
        DashifyKeepsKeys(s[1..]);
        assert ([s[0]] + Dashify(s[1..]))[1..] == Dashify(s[1..]);
      } else {
        var rest := SkipRun(s[1..]);
        DashifyKeepsKeys(rest);
        SkipRunDropsRun(s[1..]);
        assert ("-" + Dashify(rest))[1..] == Dashify(rest);
      }
    }
  }

  /** Reading `s` from the left, one more character: a key character is kept,
      a character outside the key set adds a dash unless it continues a run of
      such characters, which already has its dash. */
  lemma {:induction false} DashifySnoc(s: string, c: char)
    ensures Dashify(s + [c]) == AfterChar(Dashify(s), c, s != [] && !IsKeyChar(s[|s| - 1]))
    decreases |s|
  {
    var sc := s + [c];
    if s == [] {
      assert sc == [c] && sc[1..] == [];
    } else if IsKeyChar(s[0]) {
      DashifyKeyHead(s, c);
    } else {
      DashifyRunHead(s, c);
    }
  }

  /** What one more character does to a dashified string: a key character is
      appended; any other character appends a dash unless it continues a run
      of such characters (`inRun`), whose dash is already there. */
  function AfterChar(d: string, c: char, inRun: bool): string {
    if IsKeyChar(c) then d + [c] else if inRun then d else d + "-"
  }

  /** A character put in front commutes with the next step. */
  lemma AfterCharPrepend(x: string, d: string, c: char, inRun: bool)
    ensures x + AfterChar(d, c, inRun) == AfterChar(x + d, c, inRun)
  {
    if IsKeyChar(c) {
      assert x + (d + [c]) == (x + d) + [c];
    } else if !inRun {
      assert x + (d + "-") == (x + d) + "-";
    }
  }

  /** `DashifySnoc` when `s` starts with a key character. */
  lemma {:induction false} DashifyKeyHead(s: string, c: char)
    requires s != [] && IsKeyChar(s[0])
    ensures Dashify(s + [c]) == AfterChar(Dashify(s), c, !IsKeyChar(s[|s| - 1]))
    decreases |s|, 0
  {
    var t := s[1..];
    var inRun := !IsKeyChar(s[|s| - 1]);
    assert (s + [c])[1..] == t + [c];
    assert Dashify(s + [c]) == [s[0]] + Dashify(t + [c]);
    assert Dashify(s) == [s[0]] + Dashify(t);
    if t == [] {
      assert s[|s| - 1] == s[0];
    } else {
      assert t[|t| - 1] == s[|s| - 1];
    }
    assert inRun == (t != [] && !IsKeyChar(t[|t| - 1]));
    DashifySnoc(t, c);
    AfterCharPrepend([s[0]], Dashify(t), c, inRun);
  }

  /** `DashifySnoc` when `s` starts with a character outside the key set. */
  lemma {:induction false} DashifyRunHead(s: string, c: char)
    requires s != [] && !IsKeyChar(s[0])
    ensures Dashify(s + [c]) == AfterChar(Dashify(s), c, !IsKeyChar(s[|s| - 1]))
    decreases |s|, 0
  {
    var t := s[1..];
    var rest := SkipRun(t);
    if rest == [] {
      DashifyAllRun(s, c);
    } else {
      DashifyRunSnoc(s, c);
      SkipRunSnoc(t, c);
      DashifyRun(s);
      SkipRunLast(t);
      assert t[|t| - 1] == s[|s| - 1];
      DashifySnoc(rest, c);
      AfterCharPrepend("-", Dashify(rest), c, !IsKeyChar(s[|s| - 1]));
    }
  }

  /** `Dashify(s + [c])` unfolded once, when `s` starts with a character outside the key set. */
  lemma DashifyRunSnoc(s: string, c: char)
    requires s != [] && !IsKeyChar(s[0])
    ensures Dashify(s + [c]) == "-" + Dashify(SkipRun(s[1..] + [c]))
  {
    TailSnoc(s, c);
    DashifyRun(s + [c]);
  }

  /** A non-empty `SkipRun` ends where its input ends. */
  lemma SkipRunLast(s: string)
    requires SkipRun(s) != []
    ensures SkipRun(s)[|SkipRun(s)| - 1] == s[|s| - 1]
  {
    var r := SkipRun(s);
    assert r == s[|s| - |r|..];
  }

  /** `DashifySnoc` when no character of `s` is a key character. */
  lemma DashifyAllRun(s: string, c: char)
    requires s != [] && !IsKeyChar(s[0]) && SkipRun(s[1..]) == []
    ensures Dashify(s + [c]) == AfterChar(Dashify(s), c, !IsKeyChar(s[|s| - 1]))
  {
    AllRunLast(s);
    AllRunDashify(s);
    AllRunDashifySnoc(s, c);
  }

  /** A string with no key character ends outside the key set. */
  lemma AllRunLast(s: string)
    requires s != [] && !IsKeyChar(s[0]) && SkipRun(s[1..]) == []
    ensures !IsKeyChar(s[|s| - 1])
  {
    if |s| > 1 {
      SkippedAll(s[1..]);
      assert s[|s| - 1] == s[1..][|s| - 2];
    }
  }

  /** When `SkipRun` drops everything, the last character is outside the key set. */
  lemma SkippedAll(t: string)
    requires t != [] && SkipRun(t) == []
    ensures !IsKeyChar(t[|t| - 1])
  {
    SkipRunDropsRun(t);
    assert 0 <= |t| - 1 < |t| - |SkipRun(t)|;
  }

  /** A string with no key character dashifies to one dash. */
  lemma AllRunDashify(s: string)
    requires s != [] && !IsKeyChar(s[0]) && SkipRun(s[1..]) == []
    ensures Dashify(s) == "-"
  {
    DashifyRun(s);
  }

  /** A string with no key character, and one more character. */
  lemma AllRunDashifySnoc(s: string, c: char)
    requires s != [] && !IsKeyChar(s[0]) && SkipRun(s[1..]) == []
    ensures Dashify(s + [c]) == if IsKeyChar(c) then "-" + [c] else "-"
  {
    DashifyRunSnoc(s, c);
    SkipRunSnoc(s[1..], c);
    DashifyOne(c);
  }

  /** Dashify of a string that starts outside the key set. */
  lemma DashifyRun(s: string)
    requires s != [] && !IsKeyChar(s[0])
    ensures Dashify(s) == "-" + Dashify(SkipRun(s[1..]))
  {
  }

  /** Dashify of one character. */
  lemma DashifyOne(c: char)
    ensures Dashify([c]) == if IsKeyChar(c) then [c] else "-"
  {
    assert [c][1..] == [];
  }

  lemma TailSnoc(s: string, c: char)
    requires s != []
    ensures (s + [c])[1..] == s[1..] + [c]
  {
  }

  /** Skipping the leading run of `s + [c]`: the run of `s` when `s` has a key
      character, otherwise all of `s` and also `c` unless it is a key character. */
  lemma {:induction false} SkipRunSnoc(s: string, c: char)
    ensures SkipRun(s + [c]) ==
      if SkipRun(s) == [] then (if IsKeyChar(c) then [c] else []) else SkipRun(s) + [c]
  {
    var sc := s + [c];
    if s == [] {
      assert sc[1..] == [];
    } else if !IsKeyChar(s[0]) {
      assert sc[1..] == s[1..] + [c];
      SkipRunSnoc(s[1..], c);
    }
  }

  /** A key character, or a dash before something that does not start with one, keeps a string dashed. */
  lemma DashedPrepend(c: char, t: string)
    requires Dashed(t) && (IsKeyChar(c) || (c == '-' && (t == [] || t[0] != '-')))
    ensures Dashed([c] + t)
  {
    var r := [c] + t;
    forall i | 0 <= i < |r| ensures IsKeyChar(r[i]) || r[i] == '-' {
      if i > 0 {
        assert r[i] == t[i - 1];
      }
    }
    forall i | 0 <= i < |r| - 1 && r[i] == '-' ensures r[i + 1] != '-' {
      assert r[i + 1] == t[i];
      if i > 0 {
        assert r[i] == t[i - 1];
      }
    }
  }

  /** `replace(/^-+/, '')`. */
  function DropLeadingDashes(s: string): (r: string)
    ensures |r| <= |s| && r == s[|s| - |r|..]
    ensures r == [] || r[0] != '-'
    ensures forall i :: 0 <= i < |s| - |r| ==> s[i] == '-'
  {
    if s != [] && s[0] == '-' then
      var r := DropLeadingDashes(s[1..]);
      assert s[1..][|s| - 1 - |r|..] == s[|s| - |r|..];
      r
    else s
  }

  /** `replace(/-+$/, '')`. */
  function DropTrailingDashes(s: string): (r: string)
    ensures |r| <= |s| && r == s[..|r|]
    ensures r == [] || r[|r| - 1] != '-'
    ensures forall i :: |r| <= i < |s| ==> s[i] == '-'
  {
    if s != [] && s[|s| - 1] == '-' then
      var r := DropTrailingDashes(s[..|s| - 1]);
      assert s[..|s| - 1][..|r|] == s[..|r|];
      r
    else s
  }

  /** A normalised agent key: key characters separated by single dashes, none at either end. */
  predicate NormalKey(r: string) {
    Dashed(r) && (r == [] || (r[0] != '-' && r[|r| - 1] != '-'))
  }

  /** `normalizeAgentKey`: trimmed and lower-cased; blank gives none; the two
      spellings of KAY/O give its catalogue key; otherwise runs of other
      characters become dashes and dashes at the ends are dropped. The result
      may be empty (for a name made only of symbols). */
  function NormalizeAgentKey(raw: string): (r: Option<string>)
    ensures r.None? <==> Text.Lower(Text.Trim(raw)) == []
    ensures r.Some? ==> NormalKey(r.value)
  {
    var cleaned := Text.Lower(Text.Trim(raw));
    if cleaned == [] then None
    else if cleaned == "kay/o" || cleaned == "kayo" then
      KayoKeyNormal();
      Some("kay-o")
    else
      var d := Dashify(cleaned);
      StripNormal(d);
      Some(DropTrailingDashes(DropLeadingDashes(d)))
  }

  /** The catalogue key of KAY/O is a normal key. */
  lemma KayoKeyNormal()
    ensures NormalKey("kay-o")
  {
    var k := "kay-o";
    assert k[3] == '-' && k[4] == 'o';
    assert forall i :: 0 <= i < |k| ==> IsKeyChar(k[i]) || k[i] == '-';
  }

  /** A slice of a dashed string is dashed. */
  lemma DashedSlice(s: string, lo: nat, hi: nat)
    requires Dashed(s) && lo <= hi <= |s|
    ensures Dashed(s[lo..hi])
  {
    var t := s[lo..hi];
    forall i | 0 <= i < |t| ensures IsKeyChar(t[i]) || t[i] == '-' {
      assert t[i] == s[lo + i];
    }
    forall i | 0 <= i < |t| - 1 && t[i] == '-' ensures t[i + 1] != '-' {
      assert t[i] == s[lo + i] && t[i + 1] == s[lo + i + 1];
    }
  }

  /** Dropping the dashes at both ends of a dashed string leaves a normal key. */
  lemma StripNormal(d: string)
    requires Dashed(d)
    ensures NormalKey(DropTrailingDashes(DropLeadingDashes(d)))
  {
    var a := DropLeadingDashes(d);
    DashedSlice(d, |d| - |a|, |d|);
    var r := DropTrailingDashes(a);
    DashedSlice(a, 0, |r|);
    assert a[0..|r|] == r;
    if r != [] {
      assert r[0] == a[0];
    }
  }

  /** Dashify leaves a dashed string as it is. */
  lemma {:induction false} DashifyFixed(s: string)
    requires Dashed(s)
    ensures Dashify(s) == s
    decreases |s|
  {
    if s != [] {
      assert Dashed(s[1..]);
      if IsKeyChar(s[0]) {
        DashifyFixed(s[1..]);
      } else {
        assert SkipRun(s[1..]) == s[1..];
        DashifyFixed(s[1..]);
      }
    }
  }

  /** A normalised key holds neither capitals nor white space at its ends. */
  lemma NormalKeyClean(r: string)
    requires NormalKey(r)
    ensures Text.Lower(Text.Trim(r)) == r
  {
    if r != [] {
      assert !Text.IsSpace(r[0]);
      assert Text.TrimStart(r) == r;
      assert !Text.IsSpace(r[|r| - 1]);
      assert Text.TrimEnd(r) == r;
    }
    forall i | 0 <= i < |r| ensures Text.Lower(r)[i] == r[i] {
      assert IsKeyChar(r[i]) || r[i] == '-';
    }
  }

  /** Normalising a normalised key gives it back, except that "kayo", which a
      name such as "-kayo" normalises to, is then read as KAY/O. */
  lemma NormalizeIdempotent(raw: string)
    requires NormalizeAgentKey(raw).Some? && NormalizeAgentKey(raw).value != []
    ensures NormalizeAgentKey(raw).value != "kayo" ==> NormalizeAgentKey(NormalizeAgentKey(raw).value) == NormalizeAgentKey(raw)
  {
    var r := NormalizeAgentKey(raw).value;
    NormalKeyClean(r);
    if r != "kayo" {
      assert |r| == 5 ==> IsKeyChar(r[3]) || r[3] == '-';
      assert r != "kay/o";
      DashifyFixed(r);
      assert DropLeadingDashes(r) == r;
      assert DropTrailingDashes(r) == r;
    }
  }

  /** The display name of KAY/O gives its catalogue key. */
  lemma KayoSlash()
    ensures NormalizeAgentKey("KAY/O") == Some("kay-o")
  {
    assert Text.TrimStart("KAY/O") == "KAY/O";
    assert Text.TrimEnd("KAY/O") == "KAY/O";
    assert Text.Lower("KAY/O") == "kay/o";
  }

  /** The spelling without a slash, in any case and padded, gives it too. */
  lemma KayoPadded()
    ensures NormalizeAgentKey(" Kayo ") == Some("kay-o")
  {
    TrimKayo();
    LowerKayo();
  }

  lemma TrimKayo()
    ensures Text.Trim(" Kayo ") == "Kayo"
  {
    var padded, left, word := " Kayo ", "Kayo ", "Kayo";
    assert padded[0] == ' ' && padded[1..] == left && !Text.IsSpace(left[0]);
    assert Text.TrimStart(left) == left;
    assert Text.TrimStart(padded) == left;
    assert left[|left| - 1] == ' ' && left[..|left| - 1] == word && !Text.IsSpace(word[|word| - 1]);
    assert Text.TrimEnd(word) == word;
  }

  lemma LowerKayo()
    ensures Text.Lower("Kayo") == "kayo"
  {
    assert Text.LowerChar('K') == 'k';
  }

  // ------------------------------------------------------------------ responses

  /** A response of the HTTP oracle: status, body text, and the body read as JSON (None when it is not JSON). */
  datatype Response = Response(status: int, text: string, json: Option<Json>)

  predicate IsOk(status: int) {
    200 <= status <= 299
  }

  /** What the service throws. */
  datatype ApiError =
    | NotConfigured                      // "HENRIK_API_KEY is not configured"
    | HttpError(status: int, text: string)  // "Henrik API error: <status> - <text>"
    | MalformedBody                       // the body is not JSON, fails the schema, or a TypeError while reading it

  /** The message of a thrown error, as the resync command reads it. */
  function ErrorMessage(e: ApiError): Option<string> {
    match e
    case NotConfigured => Some("HENRIK_API_KEY is not configured")
    case HttpError(status, text) => Some("Henrik API error: " + Text.IntToString(status) + " - " + text)
    case MalformedBody => None
  }

  datatype MatchAgentEntry = MatchAgentEntry(riotId: string, agentKey: string, kills: Option<int>, deaths: Option<int>, assists: Option<int>)

  /** A string member of a player record, trimmed. */
  function TrimmedString(p: Json, key: string): Option<string> {
    var v := Member(p, key);
    if v.Some? && v.value.JStr? then Some(Text.Trim(v.value.s)) else None
  }

  /** The payload fields an agent name is read from, in order. */
  const AGENT_FIELDS: seq<string> := ["character", "character_name", "agent", "agent_name", "character_id"]

  /** The first of `fields` that holds a non-empty string. */
  function FirstNonEmpty(p: Json, fields: seq<string>): (r: Option<string>)
    ensures r.Some? ==> r.value != [] && exists k :: 0 <= k < |fields| && Member(p, fields[k]) == Some(JStr(r.value))
  {
    if fields == [] then None
    else
      var v := Member(p, fields[0]);
      if v.Some? && v.value.JStr? && v.value.s != "" then
        assert Member(p, fields[0]) == Some(JStr(v.value.s));
        Some(v.value.s)
      else
        var rest := FirstNonEmpty(p, fields[1..]);
        if rest.Some? then
          var k :| 0 <= k < |fields[1..]| && Member(p, fields[1..][k]) == Some(JStr(rest.value));
          assert Member(p, fields[k + 1]) == Some(JStr(rest.value));
          rest
        else None
  }

  /** A number member, when it is a whole number. */
  function NumberField(p: Json, key: string): Option<int> {
    var v := Member(p, key);
    if v.Some? then AsInt(v.value) else None
  }

  /** A kill/death/assist count: the top-level number, else the one under `stats`. */
  function StatCount(p: Json, key: string): (r: Option<int>)
    ensures NumberField(p, key).Some? ==> r == NumberField(p, key)
  {
    var top := NumberField(p, key);
    if top.Some? then top
    else
      var stats := Member(p, "stats");
      if stats.Some? then NumberField(stats.value, key) else None
  }

  /** A key with an own entry in `AGENT_LOOKUP`: a catalogue agent's key. */
  predicate IsCatalogueKey(key: string) {
    key in Agents.Lookup(Agents.AGENTS)
  }

  /** `AGENT_LOOKUP[key]` is truthy. The lookup is a plain object, so besides
      its own entries it answers the properties every object inherits; of
      those only `constructor` is spelt with lower-case letters alone, so it
      is the one a normalised key can name. */
  predicate LookupTruthy(key: string) {
    IsCatalogueKey(key) || key == "constructor"
  }

  /** One player of `getMatchAgents` under a test of the agent key: a name
      and tag, an agent name that normalises to a key passing `known`, and
      the counts. */
  function EntryWhere(p: Json, known: string -> bool): (r: Option<MatchAgentEntry>)
    ensures r.Some? ==> known(r.value.agentKey) && r.value.agentKey != []
    ensures r.Some? ==>
      (TrimmedString(p, "name").Some? && TrimmedString(p, "name").value != []
       && TrimmedString(p, "tag").Some? && TrimmedString(p, "tag").value != []
       && r.value.riotId == RiotKey(RiotId(TrimmedString(p, "name").value, TrimmedString(p, "tag").value)))
    ensures r.Some? ==> r.value.kills == StatCount(p, "kills") && r.value.deaths == StatCount(p, "deaths") && r.value.assists == StatCount(p, "assists")
  {
    var name := TrimmedString(p, "name");
    var tag := TrimmedString(p, "tag");
    if name.None? || name.value == [] || tag.None? || tag.value == [] then None
    else
      var raw := FirstNonEmpty(p, AGENT_FIELDS);
      if raw.None? then None
      else
        var key := NormalizeAgentKey(raw.value);
        if key.None? || key.value == [] || !known(key.value) then None
        else Some(MatchAgentEntry(RiotKey(RiotId(name.value, tag.value)), key.value,
                                  StatCount(p, "kills"), StatCount(p, "deaths"), StatCount(p, "assists")))
  }

  /** One player as the service writes the check, `!AGENT_LOOKUP[agentKey]`. */
  function AgentEntryAsWritten(p: Json): (r: Option<MatchAgentEntry>)
    ensures r.Some? ==> LookupTruthy(r.value.agentKey)
  {
    EntryWhere(p, LookupTruthy)
  }

  /** One player of `getMatchAgents` with the lookup limited to the
      catalogue's own keys: a name and tag, an agent name that normalises to
      a catalogue key, and the counts. */
  function AgentEntry(p: Json): (r: Option<MatchAgentEntry>)
    ensures r.Some? ==> r.value.agentKey in Agents.Lookup(Agents.AGENTS) && r.value.agentKey != []
    ensures r.Some? ==>
      (TrimmedString(p, "name").Some? && TrimmedString(p, "name").value != []
       && TrimmedString(p, "tag").Some? && TrimmedString(p, "tag").value != []
       && r.value.riotId == RiotKey(RiotId(TrimmedString(p, "name").value, TrimmedString(p, "tag").value)))
    ensures r.Some? ==> r.value.kills == StatCount(p, "kills") && r.value.deaths == StatCount(p, "deaths") && r.value.assists == StatCount(p, "assists")
    ensures r.Some? ==> AgentEntryAsWritten(p) == r
  {
    EntryWhere(p, IsCatalogueKey)
  }

  /** No catalogue agent has the key "constructor". */
  lemma ConstructorNotCatalogued()
    ensures !IsCatalogueKey("constructor")
  {
    forall a | a in Agents.AGENTS ensures |a.key| <= 9 {
    }
  }

  /** A lower-case word of key characters other than "kayo" normalises to itself. */
  lemma PlainKey(s: string)
    requires s != [] && s != "kayo"
    requires forall i :: 0 <= i < |s| ==> IsKeyChar(s[i])
    ensures NormalizeAgentKey(s) == Some(s)
  {
    assert IsKeyChar(s[0]) && IsKeyChar(s[|s| - 1]);
    TrimWord(s);
    LowerKeyChars(s);
    CleanWordKey(s, s);
  }

  /** Lower-casing leaves key characters alone. */
  lemma LowerKeyChars(s: string)
    requires forall i :: 0 <= i < |s| ==> IsKeyChar(s[i])
    ensures Text.Lower(s) == s
  {
    forall i | 0 <= i < |s| ensures Text.Lower(s)[i] == s[i] {
      assert IsKeyChar(s[i]);
    }
  }

  /** A word with no white space at either end is its own trim. */
  lemma TrimWord(s: string)
    requires s != [] && !Text.IsSpace(s[0]) && !Text.IsSpace(s[|s| - 1])
    ensures Text.Trim(s) == s
  {
    assert Text.TrimStart(s) == s;
  }

  /** Trimming and lower-casing a capitalised word of key characters lowers its first letter. */
  lemma CleanCapitalised(c: char, t: string)
    requires 'A' <= c <= 'Z' && t != []
    requires forall i :: 0 <= i < |t| ==> IsKeyChar(t[i])
    ensures Text.Lower(Text.Trim([c] + t)) == [Text.LowerChar(c)] + t
  {
    var raw := [c] + t;
    assert raw[0] == c && raw[|raw| - 1] == t[|t| - 1] && IsKeyChar(t[|t| - 1]);
    TrimWord(raw);
    assert raw[1..] == t;
    LowerKeyChars(t);
  }

  /** A name whose trimmed lower-case form is a word of key characters other
      than "kayo" normalises to that word. */
  lemma CleanWordKey(raw: string, low: string)
    requires Text.Lower(Text.Trim(raw)) == low && low != [] && low != "kayo"
    requires forall i :: 0 <= i < |low| ==> IsKeyChar(low[i])
    ensures NormalizeAgentKey(raw) == Some(low)
  {
    assert |low| == 5 ==> low[3] != '/';
    DashifyFixed(low);
    assert DropLeadingDashes(low) == low;
    assert DropTrailingDashes(low) == low;
  }

  /** A capitalised word of key characters normalises to its lower-case spelling. */
  lemma CapitalisedKey(c: char, t: string)
    requires 'A' <= c <= 'Z' && t != []
    requires forall i :: 0 <= i < |t| ==> IsKeyChar(t[i])
    requires [Text.LowerChar(c)] + t != "kayo"
    ensures NormalizeAgentKey([c] + t) == Some([Text.LowerChar(c)] + t)
  {
    var low := [Text.LowerChar(c)] + t;
    CleanCapitalised(c, t);
    forall i | 0 <= i < |low| ensures IsKeyChar(low[i]) {
      if i > 0 {
        assert low[i] == t[i - 1];
      }
    }
    CleanWordKey([c] + t, low);
  }

  /** A player with a name and a tag whose first agent field normalises to
      the key `k` is kept exactly when `known` accepts `k`, under that key. */
  lemma EntryWhereKey(p: Json, known: string -> bool, raw: string, k: string)
    requires TrimmedString(p, "name").Some? && TrimmedString(p, "name").value != []
    requires TrimmedString(p, "tag").Some? && TrimmedString(p, "tag").value != []
    requires FirstNonEmpty(p, AGENT_FIELDS) == Some(raw)
    requires NormalizeAgentKey(raw) == Some(k) && k != []
    ensures EntryWhere(p, known).Some? <==> known(k)
    ensures EntryWhere(p, known).Some? ==> EntryWhere(p, known).value.agentKey == k
  {
  }

  /** "Constructor" (the letter `c` followed by `t`) normalises to "constructor". */
  lemma ConstructorKey(c: char, t: string)
    requires c == 'C' && t == "onstructor"
    ensures NormalizeAgentKey([c] + t) == Some("constructor")
  {
    assert forall i :: 0 <= i < |t| ==> IsKeyChar(t[i]);
    assert [Text.LowerChar(c)] + t == "constructor";
    CapitalisedKey(c, t);
  }

  /** A player with a name and a tag whose character is "Constructor" (the
      letter `c` followed by `t`) is kept by the service's check, with the
      agent key "constructor", which names no catalogue agent; the
      catalogue-only check drops them. */
  lemma ConstructorKept(p: Json, c: char, t: string)
    requires c == 'C' && t == "onstructor"
    requires TrimmedString(p, "name").Some? && TrimmedString(p, "name").value != []
    requires TrimmedString(p, "tag").Some? && TrimmedString(p, "tag").value != []
    requires Member(p, "character") == Some(JStr([c] + t))
    ensures AgentEntryAsWritten(p).Some? && AgentEntryAsWritten(p).value.agentKey == "constructor"
    ensures !IsCatalogueKey("constructor") && AgentEntry(p).None?
  {
    ConstructorKey(c, t);
    ConstructorNotCatalogued();
    assert AGENT_FIELDS[0] == "character";
    assert FirstNonEmpty(p, AGENT_FIELDS) == Some([c] + t);
    EntryWhereKey(p, LookupTruthy, [c] + t, "constructor");
    EntryWhereKey(p, IsCatalogueKey, [c] + t, "constructor");
  }

  /** `data.players.all_players`, or none when a step of the path is missing. */
  function AllPlayers(body: Json): Option<Json> {
    var data := Member(body, "data");
    if data.None? || data.value.JNull? then None
    else
      var players := Member(data.value, "players");
      if players.None? || players.value.JNull? then None
      else
        var all := Member(players.value, "all_players");
        if all.None? || all.value.JNull? then None else all
  }

  /** The request URL of one match. */
  function MatchUrl(matchId: string, encodeComponent: string -> string): string {
    "https://api.henrikdev.xyz/valorant/v2/match/" + encodeComponent(matchId)
  }

  /** Some element of the player list is `null`. */
  predicate HasNull(players: seq<Json>) {
    exists i :: 0 <= i < |players| && players[i].JNull?
  }

  /** The player list cannot be mapped: it is not an array (`.map` is not a
      function), or an element is `null` (`player.name` throws). */
  predicate Unreadable(all: Option<Json>) {
    all.Some? && (!all.value.JArr? || HasNull(all.value.items))
  }

  /** `getMatchAgents`: the entries of the players that pass `AgentEntry`, in
      order; an unreadable body or player list fails the whole call. */
  function GetMatchAgents(apiKey: Option<string>, matchId: string, encodeComponent: string -> string,
                          fetch: string -> Response): (r: Result<seq<MatchAgentEntry>, ApiError>)
    ensures !Truthy(apiKey) ==> r == Err(NotConfigured)
    ensures Truthy(apiKey) && !IsOk(fetch(MatchUrl(matchId, encodeComponent)).status) ==>
      var resp := fetch(MatchUrl(matchId, encodeComponent));
      r == Err(HttpError(resp.status, resp.text))
    ensures r == Err(MalformedBody) <==>
      var body := fetch(MatchUrl(matchId, encodeComponent)).json;
      Truthy(apiKey) && IsOk(fetch(MatchUrl(matchId, encodeComponent)).status)
      && (body.None? || Unreadable(AllPlayers(body.value)))
    ensures r.Ok? ==>
      var body := fetch(MatchUrl(matchId, encodeComponent)).json;
      body.Some?
      && (AllPlayers(body.value).None? ==> r.value == [])
      && (AllPlayers(body.value).Some? ==> r.value == Tables.FilterMap(AllPlayers(body.value).value.items, AgentEntry))
    ensures r.Ok? ==> forall i :: 0 <= i < |r.value| ==> r.value[i].agentKey in Agents.Lookup(Agents.AGENTS)
  {
    if !Truthy(apiKey) then Err(NotConfigured)
    else
      var resp := fetch(MatchUrl(matchId, encodeComponent));
      if !IsOk(resp.status) then Err(HttpError(resp.status, resp.text))
      else if resp.json.None? then Err(MalformedBody)
      else
        var all := AllPlayers(resp.json.value);
        if all.None? then Ok([])
        else if !all.value.JArr? || HasNull(all.value.items) then Err(MalformedBody)
        else
          var entries := Tables.FilterMap(all.value.items, AgentEntry);
          AgentEntriesValid(all.value.items);
          Ok(entries)
  }

  /** Every kept entry names a catalogue agent and comes from one player, in order. */
  lemma {:induction false} AgentEntriesValid(players: seq<Json>)
    ensures forall i :: 0 <= i < |Tables.FilterMap(players, AgentEntry)| ==>
      Tables.FilterMap(players, AgentEntry)[i].agentKey in Agents.Lookup(Agents.AGENTS)
  {
    var entries := Tables.FilterMap(players, AgentEntry);
    forall i | 0 <= i < |entries| ensures entries[i].agentKey in Agents.Lookup(Agents.AGENTS) {
      assert entries[i] in entries;
      Tables.FilterMapMembers(players, AgentEntry, entries[i]);
    }
  }

  /** The agent name comes from the first field in order that holds a non-empty
      string: a character name hides every later field. */
  lemma CharacterFirst(p: Json, s: string)
    requires s != [] && Member(p, "character") == Some(JStr(s))
    ensures FirstNonEmpty(p, AGENT_FIELDS) == Some(s)
  {
  }

  // ------------------------------------------------------------------ recent matches

  datatype ParsedMatch = ParsedMatch(
    matchId: string,
    mapName: string,
    mode: string,
    date: string,
    matchType: MatchType,
    matchTypeLabel: Option<string>,
    scoreUs: int,
    scoreThem: int,
    result: Outcome)

  /** One match of `getRecentMatches`: dropped when it is Other and not all
      are shown, when the player's team is unknown, or when a score is missing. */
  function ParseMatch(hm: HenrikMatch, name: string, tag: string, showAll: bool): (r: Option<ParsedMatch>)
    ensures r.Some? <==>
      (showAll || GetMatchType(hm).matchType != Other)
      && FindPlayerTeam(hm, name, tag).Some?
      && hm.red.roundsWon.Some? && hm.blue.roundsWon.Some?
    ensures r.Some? ==>
      var score := CalculateScores(hm, FindPlayerTeam(hm, name, tag).value);
      score.Some? && r.value.scoreUs == score.value.us && r.value.scoreThem == score.value.them
      && r.value.result == DetermineResult(score.value.us, score.value.them)
    ensures r.Some? ==>
      r.value.matchId == hm.metadata.matchid && r.value.mapName == hm.metadata.mapName
      && r.value.mode == hm.metadata.mode && r.value.date == hm.metadata.gameStartPatched
      && r.value.matchType == GetMatchType(hm).matchType && r.value.matchTypeLabel == GetMatchType(hm).typeLabel
  {
    var info := GetMatchType(hm);
    if !showAll && info.matchType == Other then None
    else
      var team := FindPlayerTeam(hm, name, tag);
      if team.None? then None
      else
        var scores := CalculateScores(hm, team.value);
        if scores.None? then None
        else
          var s := scores.value;
          Some(ParsedMatch(hm.metadata.matchid, hm.metadata.mapName, hm.metadata.mode,
                           hm.metadata.gameStartPatched, info.matchType, info.typeLabel,
                           s.us, s.them, DetermineResult(s.us, s.them)))
  }

  /** The request URL of a player's recent matches. */
  function RecentUrl(region: string, name: string, tag: string, encodeComponent: string -> string): string {
    "https://api.henrikdev.xyz/valorant/v3/matches/" + region + "/" + encodeComponent(name) + "/" + encodeComponent(tag)
  }

  /** `getRecentMatches`; `validate` is the response schema (None when the body fails it). */
  function GetRecentMatches(apiKey: Option<string>, name: string, tag: string, region: string, showAll: bool,
                            encodeComponent: string -> string, fetch: string -> Response,
                            validate: Json -> Option<seq<HenrikMatch>>): (r: Result<seq<ParsedMatch>, ApiError>)
    ensures !Truthy(apiKey) ==> r == Err(NotConfigured)
    ensures Truthy(apiKey) && !IsOk(fetch(RecentUrl(region, name, tag, encodeComponent)).status) ==>
      var resp := fetch(RecentUrl(region, name, tag, encodeComponent));
      r == Err(HttpError(resp.status, resp.text))
    ensures r == Err(MalformedBody) <==>
      var resp := fetch(RecentUrl(region, name, tag, encodeComponent));
      Truthy(apiKey) && IsOk(resp.status) && (resp.json.None? || validate(resp.json.value).None?)
    ensures r.Ok? ==>
      var body := fetch(RecentUrl(region, name, tag, encodeComponent)).json;
      body.Some? && validate(body.value).Some?
      && r.value == RecentMatches(validate(body.value).value, name, tag, showAll)
  {
    if !Truthy(apiKey) then Err(NotConfigured)
    else
      var resp := fetch(RecentUrl(region, name, tag, encodeComponent));
      if !IsOk(resp.status) then Err(HttpError(resp.status, resp.text))
      else if resp.json.None? then Err(MalformedBody)
      else
        var data := validate(resp.json.value);
        if data.None? then Err(MalformedBody)
        else Ok(RecentMatches(data.value, name, tag, showAll))
  }

  /** The parsed matches, in the order of the response. */
  function RecentMatches(data: seq<HenrikMatch>, name: string, tag: string, showAll: bool): (r: seq<ParsedMatch>)
    ensures |r| <= |data|
  {
    Tables.FilterMap(data, (m: HenrikMatch) => ParseMatch(m, name, tag, showAll))
  }

  /** Every listed match comes from the response, carries a type other than
      Other unless all are shown, and its result agrees with its score. */
  lemma RecentMatchesSound(data: seq<HenrikMatch>, name: string, tag: string, showAll: bool, p: ParsedMatch)
    requires p in RecentMatches(data, name, tag, showAll)
    ensures showAll || p.matchType != Other
    ensures p.result == DetermineResult(p.scoreUs, p.scoreThem)
    ensures p.matchTypeLabel.None? <==> p.matchType == Other
    ensures exists m :: m in data && m.metadata.matchid == p.matchId && FindPlayerTeam(m, name, tag).Some?
  {
    var f := (m: HenrikMatch) => ParseMatch(m, name, tag, showAll);
    Tables.FilterMapMembers(data, f, p);
    var m :| m in data && f(m) == Some(p);
    assert ParseMatch(m, name, tag, showAll) == Some(p);
  }

  /** A match of a shown type, with the player on a team and both scores, is listed. */
  lemma RecentMatchesComplete(data: seq<HenrikMatch>, name: string, tag: string, showAll: bool, m: HenrikMatch)
    requires m in data
    requires showAll || GetMatchType(m).matchType != Other
    requires FindPlayerTeam(m, name, tag).Some? && m.red.roundsWon.Some? && m.blue.roundsWon.Some?
    ensures ParseMatch(m, name, tag, showAll).Some? && ParseMatch(m, name, tag, showAll).value in RecentMatches(data, name, tag, showAll)
  {
    var f := (x: HenrikMatch) => ParseMatch(x, name, tag, showAll);
    Tables.FilterMapMembers(data, f, f(m).value);
  }
}

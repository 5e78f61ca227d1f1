/** The `matches:resync-valorant` command: it re-syncs the stats of matches
    that have a stored Valorant match id, spacing the sync requests by a
    minimum interval and retrying on rate-limit errors. The sync itself is an
    oracle; the clock is a field that sleeping and requests advance. */
module Resync {
  import opened Wrappers
  import opened Models
  import Text
  import Tables

  // ------------------------------------------------------------------ settings

  function Min(a: int, b: int): int { if a <= b then a else b }
  function Max(a: int, b: int): int { if a >= b then a else b }

  /** `clamp(value, min, max)` = `Math.min(max, Math.max(min, value))`. */
  function Clamp(v: int, lo: int, hi: int): (r: int)
    ensures lo <= hi ==> lo <= r <= hi
    ensures lo <= v <= hi ==> r == v
    ensures lo <= hi && v < lo ==> r == lo
    ensures lo <= hi && hi < v ==> r == hi
  {
    Min(hi, Max(lo, v))
  }

  /** The command's number flags, absent when not given. */
  datatype Flags = Flags(matchId: Option<int>, limit: Option<int>, rpm: Option<int>, delayMs: Option<int>,
                         rateLimitRetries: Option<int>)

  datatype Settings = Settings(minIntervalMs: int, maxAttempts: int)

  /** Requests per minute: the flag or 25, kept within 1..30. */
  function EffectiveRpm(f: Flags): (r: int)
    ensures 1 <= r <= 30
    ensures f.rpm.None? ==> r == 25
    ensures f.rpm.Some? && 1 <= f.rpm.value <= 30 ==> r == f.rpm.value
  {
    Clamp(f.rpm.GetOr(25), 1, 30)
  }

  /** `Math.ceil(a / b)` for a positive divisor. */
  function CeilDiv(a: int, b: int): (q: int)
    requires b > 0
    ensures (q - 1) * b < a <= q * b
  {
    (a + b - 1) / b
  }

  /** Multiplying by a natural number keeps the order. */
  lemma {:induction false} MulMono(x: int, y: int, z: nat)
    requires x <= y
    ensures x * z <= y * z
    decreases z
  {
    if z > 0 {
      MulMono(x, y, z - 1);
      assert x * z == x * (z - 1) + x && y * z == y * (z - 1) + y;
    }
  }

  /** One minute spread over 1..30 requests is 2 to 60 seconds per request. */
  lemma IntervalBounds(rpm: int)
    requires 1 <= rpm <= 30
    ensures 2000 <= CeilDiv(60_000, rpm) <= 60_000
  {
    var q := CeilDiv(60_000, rpm);
    var low := Min(q, 1999);
    MulMono(low, 1999, rpm);
    var high: nat := Max(q - 1, 0);
    MulMono(1, rpm, high);
  }

  /** The minimum interval between requests (a positive delay flag, else one
      minute spread over the effective rate) and the number of attempts per
      match (one plus the retries, kept within 0..10). */
  function SettingsOf(f: Flags): (s: Settings)
    ensures f.delayMs.Some? && f.delayMs.value > 0 ==> s.minIntervalMs == f.delayMs.value
    ensures !(f.delayMs.Some? && f.delayMs.value > 0) ==>
      var rpm := EffectiveRpm(f);
      (s.minIntervalMs - 1) * rpm < 60_000 <= s.minIntervalMs * rpm && 2000 <= s.minIntervalMs <= 60_000
    ensures s.minIntervalMs > 0
    ensures 1 <= s.maxAttempts <= 11
    ensures f.rateLimitRetries.None? ==> s.maxAttempts == 3
  {
    var rpm := EffectiveRpm(f);
    IntervalBounds(rpm);
    var interval := if f.delayMs.Some? && f.delayMs.value > 0 then f.delayMs.value else CeilDiv(60_000, rpm);
    Settings(interval, 1 + Clamp(f.rateLimitRetries.GetOr(2), 0, 10))
  }

  // ------------------------------------------------------------------ errors

  /** A thrown value: an Error with its message, or anything else. */
  datatype Thrown = ErrorObj(message: string) | NonError

  /** A character of the regular-expression class `\w`. */
  predicate IsWordChar(c: char) {
    'a' <= c <= 'z' || 'A' <= c <= 'Z' || '0' <= c <= '9' || c == '_'
  }

  /** `429` at position i with a word boundary on both sides (`\b429\b`). */
  predicate Standalone429At(s: string, i: int) {
    Text.OccursAt(s, "429", i)
    && (i == 0 || !IsWordChar(s[i - 1]))
    && (i + 3 == |s| || !IsWordChar(s[i + 3]))
  }

  /** Scans for a standalone `429` from position i. */
  function Find429(s: string, i: nat): bool
    decreases |s| - i
  {
    if i + 3 > |s| then false else Standalone429At(s, i) || Find429(s, i + 1)
  }

  /** The scan finds a standalone `429` exactly when there is one (`/\b429\b/.test`). */
  lemma {:induction false} Find429Exactly(s: string, i: nat)
    ensures Find429(s, i) <==> exists j :: i <= j && Standalone429At(s, j)
    decreases |s| - i
  {
    if i + 3 <= |s| {
      Find429Exactly(s, i + 1);
      if exists j :: i <= j && Standalone429At(s, j) {
        var j :| i <= j && Standalone429At(s, j);
        assert j == i || i + 1 <= j;
      }
    } else {
      assert forall j :: i <= j ==> !Standalone429At(s, j);
    }
  }

  /** Scans for `sub` from position i. */
  function FindFrom(s: string, sub: string, i: nat): bool
    decreases |s| - i
  {
    if i + |sub| > |s| then false else Text.OccursAt(s, sub, i) || FindFrom(s, sub, i + 1)
  }

  /** The scan finds `sub` exactly when `s` contains it (`s.includes(sub)`). */
  lemma {:induction false} FindFromExactly(s: string, sub: string)
    ensures FindFrom(s, sub, 0) <==> Text.Contains(s, sub)
  {
    FindFromTail(s, sub, 0);
  }

  lemma {:induction false} FindFromTail(s: string, sub: string, i: nat)
    ensures FindFrom(s, sub, i) <==> exists j :: i <= j <= |s| - |sub| && Text.OccursAt(s, sub, j)
    decreases |s| - i
  {
    if i + |sub| <= |s| {
      FindFromTail(s, sub, i + 1);
      if exists j :: i <= j <= |s| - |sub| && Text.OccursAt(s, sub, j) {
        var j :| i <= j <= |s| - |sub| && Text.OccursAt(s, sub, j);
        assert j == i || i + 1 <= j;
      }
    }
  }

  /** `isRateLimitError`: an Error whose message has a standalone 429 or, in any case, "rate limit". */
  predicate IsRateLimitError(e: Thrown)
    ensures IsRateLimitError(e) <==>
      e.ErrorObj? && ((exists j :: 0 <= j && Standalone429At(e.message, j)) || Text.Contains(Text.Lower(e.message), "rate limit"))
  {
    if e.ErrorObj? then
      Find429Exactly(e.message, 0);
      FindFromExactly(Text.Lower(e.message), "rate limit");
      Find429(e.message, 0) || FindFrom(Text.Lower(e.message), "rate limit", 0)
    else false
  }

  /** A Valorant API error with status 429 is a rate-limit error, whatever the response text. */
  lemma ApiStatus429(text: string)
    ensures IsRateLimitError(ErrorObj("Henrik API error: 429 - " + text))
  {
    var msg := "Henrik API error: 429 - " + text;
    assert msg[18..21] == "429" && msg[17] == ' ' && msg[21] == ' ';
    assert Standalone429At(msg, 18);
    Find429Exactly(msg, 0);
  }

  /** A status such as 4290 is not standalone: the digit after it is a word character. */
  lemma LongerNumberNot429(s: string, i: int)
    requires Text.OccursAt(s, "4290", i)
    ensures !Standalone429At(s, i)
  {
    assert s[i + 3] == s[i..i + 4][3] == '0';
  }

  // ------------------------------------------------------------------ retry-after

  /** The lower-cased message has `retry`, an optional '-' or ' ', and `after`
      at position i; the result is the position after them. */
  function KeywordEnd(s: string, i: nat): (r: Option<nat>)
    requires i <= |s|
    ensures r.Some? ==> i < r.value <= |s|
  {
    var t := s[i..];
    if Text.StartsWith(t, "retry-after") || Text.StartsWith(t, "retry after") then Some(i + 11)
    else if Text.StartsWith(t, "retryafter") then Some(i + 10)
    else None
  }

  /** The end of the run of non-digits from j (`[^0-9]*`). */
  function NonDigitsEnd(s: string, j: nat): (k: nat)
    requires j <= |s|
    ensures j <= k <= |s| && (k == |s| || Text.IsDigit(s[k]))
    ensures forall x :: j <= x < k ==> !Text.IsDigit(s[x])
    decreases |s| - j
  {
    if j == |s| || Text.IsDigit(s[j]) then j else NonDigitsEnd(s, j + 1)
  }

  /** The end of the run of digits from j (`\d+`, greedy). */
  function DigitsEnd(s: string, j: nat): (k: nat)
    requires j <= |s|
    ensures j <= k <= |s| && (k == |s| || !Text.IsDigit(s[k]))
    ensures forall x :: j <= x < k ==> Text.IsDigit(s[x])
    decreases |s| - j
  {
    if j == |s| || !Text.IsDigit(s[j]) then j else DigitsEnd(s, j + 1)
  }

  /** The end of the run of white space from j (`\s*`). */
  function SpacesEnd(s: string, j: nat): (k: nat)
    requires j <= |s|
    ensures j <= k <= |s| && (k == |s| || !Text.IsSpace(s[k]))
    ensures forall x :: j <= x < k ==> Text.IsSpace(s[x])
    decreases |s| - j
  {
    if j == |s| || !Text.IsSpace(s[j]) then j else SpacesEnd(s, j + 1)
  }

  datatype Unit = Millis | Seconds

  /** `(ms|millisecond)` or `(s|sec|second)` at position k. */
  predicate UnitAt(s: string, k: nat, u: Unit)
    requires k <= |s|
  {
    match u
    case Millis => Text.StartsWith(s[k..], "ms") || Text.StartsWith(s[k..], "millisecond")
    case Seconds => Text.StartsWith(s[k..], "s")
  }

  /** The number the pattern captures when a match starts at position i. Each
      part of the pattern can end in only one place, so a match at a start
      position is unique. */
  function MatchAt(s: string, i: nat, u: Unit): Option<nat>
    requires i <= |s|
  {
    var e := KeywordEnd(s, i);
    if e.None? then None
    else
      var j := NonDigitsEnd(s, e.value);
      var d := DigitsEnd(s, j);
      if j == d then None
      else
        var k := SpacesEnd(s, d);
        if UnitAt(s, k, u) then Some(Text.ParseDigits(s[j..d])) else None
  }

  /** The leftmost start position from i at which the pattern matches. */
  function FirstMatch(s: string, i: nat, u: Unit): (r: Option<nat>)
    requires i <= |s|
    ensures r.Some? ==> i <= r.value <= |s| && MatchAt(s, r.value, u).Some?
    ensures r.Some? ==> forall k :: i <= k < r.value ==> MatchAt(s, k, u).None?
    ensures r.None? ==> forall k :: i <= k <= |s| ==> MatchAt(s, k, u).None?
    decreases |s| - i
  {
    if MatchAt(s, i, u).Some? then Some(i)
    else if i == |s| then None
    else FirstMatch(s, i + 1, u)
  }

  /** A match of either form somewhere in the text. */
  predicate AnyMatch(s: string) {
    exists i :: 0 <= i <= |s| && (MatchAt(s, i, Millis).Some? || MatchAt(s, i, Seconds).Some?)
  }

  /** The leftmost match of the unit's form has the value `v`. */
  predicate LeftmostValue(s: string, u: Unit, v: Option<nat>) {
    exists i :: 0 <= i <= |s| && MatchAt(s, i, u).Some? && v == MatchAt(s, i, u)
      && forall k :: 0 <= k < i ==> MatchAt(s, k, u).None?
  }

  /** Some position matches the unit's form. */
  predicate MatchesSomewhere(s: string, u: Unit) {
    exists i :: 0 <= i <= |s| && MatchAt(s, i, u).Some?
  }

  /** What the two leftmost scans give: the millisecond value, else the seconds value times 1000. */
  function Pick(s: string): Option<nat> {
    var ms := FirstMatch(s, 0, Millis);
    if ms.Some? then MatchAt(s, ms.value, Millis)
    else
      var sec := FirstMatch(s, 0, Seconds);
      if sec.Some? then Some(MatchAt(s, sec.value, Seconds).value * 1000) else None
  }

  /** The picked value is the leftmost millisecond match, else the leftmost
      seconds match times 1000, and none exactly when neither form matches. */
  lemma PickLeftmost(s: string)
    ensures Pick(s).Some? <==> AnyMatch(s)
    ensures MatchesSomewhere(s, Millis) ==> LeftmostValue(s, Millis, Pick(s))
    ensures !MatchesSomewhere(s, Millis) && Pick(s).Some? ==>
      LeftmostValue(s, Seconds, MatchAt(s, FirstMatch(s, 0, Seconds).value, Seconds))
      && Pick(s).value == MatchAt(s, FirstMatch(s, 0, Seconds).value, Seconds).value * 1000
  {
    var ms := FirstMatch(s, 0, Millis);
    var sec := FirstMatch(s, 0, Seconds);
    if ms.Some? {
      assert 0 <= ms.value <= |s| && MatchAt(s, ms.value, Millis).Some?;
      assert LeftmostValue(s, Millis, Pick(s));
    } else if sec.Some? {
      assert 0 <= sec.value <= |s| && MatchAt(s, sec.value, Seconds).Some?;
      assert LeftmostValue(s, Seconds, MatchAt(s, sec.value, Seconds));
    } else {
      forall j | 0 <= j <= |s| ensures MatchAt(s, j, Millis).None? && MatchAt(s, j, Seconds).None? {
      }
    }
  }

  /** `extractRetryAfterMs`: the millisecond form first, then the seconds form
      times 1000, each at its leftmost match; none when neither form matches
      anywhere in the lower-cased message. */
  function ExtractRetryAfterMs(message: string): (r: Option<nat>)
    ensures r.Some? <==> AnyMatch(Text.Lower(message))
    ensures MatchesSomewhere(Text.Lower(message), Millis) ==> LeftmostValue(Text.Lower(message), Millis, r)
    ensures !MatchesSomewhere(Text.Lower(message), Millis) && r.Some? ==>
      exists v: nat :: LeftmostValue(Text.Lower(message), Seconds, Some(v)) && r.value == v * 1000
  {
    var s := Text.Lower(message);
    PickLeftmost(s);
    if !MatchesSomewhere(s, Millis) && Pick(s).Some? then
      var v := MatchAt(s, FirstMatch(s, 0, Seconds).value, Seconds).value;
      assert LeftmostValue(s, Seconds, Some(v));
      Pick(s)
    else Pick(s)
  }

  /** The wait before a retry: the advertised delay, else 65 seconds. */
  function RetryWait(message: string): nat {
    ExtractRetryAfterMs(message).GetOr(65_000)
  }

  /** Lower-casing leaves a text without capital letters as it is. */
  lemma LowerFixed(s: string)
    requires forall i :: 0 <= i < |s| ==> !('A' <= s[i] <= 'Z')
    ensures Text.Lower(s) == s
  {
  }

  /** `\d+` from j stops exactly after a run of digits d followed by a non-digit. */
  lemma DigitsEndAt(s: string, j: nat, d: string)
    requires j + |d| <= |s| && s[j..j + |d|] == d && Text.AllDigits(d)
    requires j + |d| == |s| || !Text.IsDigit(s[j + |d|])
    ensures DigitsEnd(s, j) == j + |d|
  {
    forall x | j <= x < j + |d| ensures Text.IsDigit(s[x]) {
      assert s[x] == s[j..j + |d|][x - j];
    }
  }

  /** The text "retry after <d><unit>": digits d, then a unit that starts with
      neither a digit nor white space. */
  function Advert(d: string, unit: string): string {
    "retry after " + d + unit
  }

  /** The pattern matches at the start of such a text and captures exactly d;
      whether it matches depends only on the unit. */
  lemma MatchAtStart(d: string, unit: string, u: Unit)
    requires |d| >= 1 && Text.AllDigits(d) && unit != [] && !Text.IsDigit(unit[0]) && !Text.IsSpace(unit[0])
    ensures MatchAt(Advert(d, unit), 0, u) == if UnitAt(Advert(d, unit), 12 + |d|, u) then Some(Text.ParseDigits(d)) else None
  {
    var s := Advert(d, unit);
    assert s[0..][..11] == "retry after";
    assert KeywordEnd(s, 0) == Some(11);
    assert s[11] == ' ' && s[12] == d[0];
    assert NonDigitsEnd(s, 11) == 12;
    assert s[12..12 + |d|] == d && s[12 + |d|] == unit[0];
    DigitsEndAt(s, 12, d);
    assert SpacesEnd(s, 12 + |d|) == 12 + |d|;
  }

  /** Rendered numbers and the unit letters hold no capital letters. */
  lemma AdvertLower(d: string, unit: string)
    requires Text.AllDigits(d) && (unit == "ms" || unit == "s")
    ensures Text.Lower(Advert(d, unit)) == Advert(d, unit)
  {
    var s := Advert(d, unit);
    forall i | 0 <= i < |s| ensures !('A' <= s[i] <= 'Z') {
      if 12 <= i < 12 + |d| {
        assert s[i] == d[i - 12];
      }
    }
    LowerFixed(s);
  }

  /** A message that advertises its delay in milliseconds yields that delay. */
  lemma RetryAfterMillis(n: nat)
    ensures ExtractRetryAfterMs("retry after " + Text.NatToString(n) + "ms") == Some(n)
  {
    var d := Text.NatToString(n);
    var s := Advert(d, "ms");
    AdvertLower(d, "ms");
    MatchAtStart(d, "ms", Millis);
    assert s[12 + |d|..] == "ms";
    assert FirstMatch(s, 0, Millis) == Some(0);
    Text.ParseNatToString(n);
  }

  /** No "retry" starts at position k when the character there is not 'r' or the next is not 'e'. */
  lemma NoKeywordAt(s: string, k: nat)
    requires k <= |s| && (k + 1 >= |s| || s[k] != 'r' || s[k + 1] != 'e')
    ensures KeywordEnd(s, k).None?
  {
    if k + 1 < |s| {
      assert s[k..][0] == s[k] && s[k..][1] == s[k + 1];
    }
  }

  /** In a seconds advert the millisecond form matches nowhere. */
  lemma NoMillisInSecondsAdvert(d: string)
    requires |d| >= 1 && Text.AllDigits(d)
    ensures forall k :: 0 <= k <= |Advert(d, "s")| ==> MatchAt(Advert(d, "s"), k, Millis).None?
  {
    var s := Advert(d, "s");
    MatchAtStart(d, "s", Millis);
    assert s[12 + |d|..] == "s";
    forall k | 1 <= k <= |s| ensures MatchAt(s, k, Millis).None? {
      if k < 12 {
        assert s[..12] == "retry after ";
        assert s[k] == "retry after "[k] && s[k + 1] == s[..12 + 1][k + 1];
      } else if k < 12 + |d| {
        assert s[k] == d[k - 12];
      }
      NoKeywordAt(s, k);
    }
  }

  /** A message that advertises its delay in seconds yields it in milliseconds:
      the millisecond form is tried first and matches nowhere. */
  lemma RetryAfterSeconds(n: nat)
    ensures ExtractRetryAfterMs("retry after " + Text.NatToString(n) + "s") == Some(n * 1000)
  {
    var d := Text.NatToString(n);
    var s := Advert(d, "s");
    AdvertLower(d, "s");
    NoMillisInSecondsAdvert(d);
    assert FirstMatch(s, 0, Millis).None?;
    MatchAtStart(d, "s", Seconds);
    assert s[12 + |d|..] == "s";
    assert FirstMatch(s, 0, Seconds) == Some(0);
    Text.ParseNatToString(n);
  }

  // ------------------------------------------------------------------ retries

  datatype SyncResult = SyncResult(syncedPlayersRows: nat, rosterAgentRows: nat)

  /** One call of the sync service: what it returns or throws, and how long it takes. */
  datatype SyncCall = SyncCall(outcome: Result<SyncResult, Thrown>, tookMs: nat)

  /** The attempts for one match: the outcome and the number of sync calls. */
  datatype Attempts = Attempts(outcome: Result<SyncResult, Thrown>, calls: nat)

  /** A failed call is retried when it is a rate-limit error and attempts are left. */
  predicate ShouldRetry(call: SyncCall, maxAttempts: nat, attempt: nat) {
    call.outcome.Err? && IsRateLimitError(call.outcome.error) && attempt < maxAttempts
  }

  /** `syncMatchWithRetry` from attempt `attempt` on; the sync oracle answers per match and attempt. */
  function Retry(m: Match, sync: (Match, nat) -> SyncCall, maxAttempts: nat, attempt: nat): (r: Attempts)
    requires 1 <= attempt
    ensures attempt <= maxAttempts + 1 ==> r.calls <= maxAttempts + 1 - attempt
    decreases maxAttempts + 1 - attempt
  {
    if attempt > maxAttempts then Attempts(Err(ErrorObj("Match #" + Text.IntToString(m.id) + ": exhausted retries")), 0)
    else
      var call := sync(m, attempt);
      if !ShouldRetry(call, maxAttempts, attempt) then Attempts(call.outcome, 1)
      else
        var rest := Retry(m, sync, maxAttempts, attempt + 1);
        Attempts(rest.outcome, rest.calls + 1)
  }

  /** The message a thrown value is logged and parsed with. */
  function MessageOf(e: Thrown): string {
    if e.ErrorObj? then e.message else "Unknown error"
  }

  /** The errors that `Retry(m, sync, maxAttempts, attempt)` retries after, in order. */
  function RetriedErrors(m: Match, sync: (Match, nat) -> SyncCall, maxAttempts: nat, attempt: nat): seq<Thrown>
    requires 1 <= attempt
    decreases maxAttempts + 1 - attempt
  {
    if attempt > maxAttempts || !ShouldRetry(sync(m, attempt), maxAttempts, attempt) then []
    else [sync(m, attempt).outcome.error] + RetriedErrors(m, sync, maxAttempts, attempt + 1)
  }

  /** After `calls` calls and the retries after `errs`, the attempts from
      `attempt` on complete the whole of `Retry` and `RetriedErrors`. */
  ghost predicate OnTrack(m: Match, sync: (Match, nat) -> SyncCall, maxAttempts: nat, attempt: nat, calls: nat, errs: seq<Thrown>)
    requires 1 <= attempt
  {
    var rest := Retry(m, sync, maxAttempts, attempt);
    var whole := Retry(m, sync, maxAttempts, 1);
    rest.outcome == whole.outcome && calls + rest.calls == whole.calls
    && errs + RetriedErrors(m, sync, maxAttempts, attempt) == RetriedErrors(m, sync, maxAttempts, 1)
  }

  /** One pass of the retry loop keeps it on track: either the call ends the
      attempts with the whole outcome, or its error is the next retried one. */
  lemma RetryProgress(m: Match, sync: (Match, nat) -> SyncCall, maxAttempts: nat, attempt: nat, calls: nat, errs: seq<Thrown>)
    requires 1 <= attempt <= maxAttempts && OnTrack(m, sync, maxAttempts, attempt, calls, errs)
    ensures var call := sync(m, attempt);
      (!ShouldRetry(call, maxAttempts, attempt) ==>
         call.outcome == Retry(m, sync, maxAttempts, 1).outcome && calls + 1 == Retry(m, sync, maxAttempts, 1).calls
         && errs == RetriedErrors(m, sync, maxAttempts, 1))
      && (ShouldRetry(call, maxAttempts, attempt) ==>
         OnTrack(m, sync, maxAttempts, attempt + 1, calls + 1, errs + [call.outcome.error]))
  {
    var call := sync(m, attempt);
    if ShouldRetry(call, maxAttempts, attempt) {
      var later := RetriedErrors(m, sync, maxAttempts, attempt + 1);
      assert RetriedErrors(m, sync, maxAttempts, attempt) == [call.outcome.error] + later;
      assert errs + [call.outcome.error] + later == errs + ([call.outcome.error] + later);
    } else {
      assert errs + [] == errs;
    }
  }

  /** With at least one attempt, the retries are never exhausted: the result
      is what one of the sync calls returned or threw, the last call's when
      it failed, and a non-rate-limit error ends the attempts at once. */
  lemma {:induction false} RetryOutcome(m: Match, sync: (Match, nat) -> SyncCall, maxAttempts: nat, attempt: nat)
    requires 1 <= attempt <= maxAttempts
    ensures var r := Retry(m, sync, maxAttempts, attempt);
      1 <= r.calls && r.outcome == sync(m, attempt + r.calls - 1).outcome
      && (forall k :: attempt <= k < attempt + r.calls - 1 ==>
            sync(m, k).outcome.Err? && IsRateLimitError(sync(m, k).outcome.error))
    decreases maxAttempts - attempt
  {
    if ShouldRetry(sync(m, attempt), maxAttempts, attempt) {
      RetryOutcome(m, sync, maxAttempts, attempt + 1);
    }
  }

  // ------------------------------------------------------------------ the command

  /** The query's `whereNotNull('valorantMatchId')` and, when a match id is
      set, `where('id', matchId)`. */
  predicate Wanted(f: Flags, m: Match) {
    m.valorantMatchId.Some? && (f.matchId.None? || f.matchId.value == 0 || m.id == f.matchId.value)
  }

  /** Matches in ascending id order, as `orderBy('id', 'asc')` returns them. */
  ghost predicate IdSorted(s: seq<Match>) {
    forall i, j :: 0 <= i < j < |s| ==> s[i].id <= s[j].id
  }

  /** A match whose id is at most every id of a sorted tail keeps it sorted in front. */
  lemma ConsIdSorted(h: Match, t: seq<Match>)
    requires IdSorted(t)
    requires forall x :: x in t ==> h.id <= x.id
    ensures IdSorted([h] + t)
  {
    forall i, j | 0 <= i < j < |t| + 1 ensures ([h] + t)[i].id <= ([h] + t)[j].id {
      assert ([h] + t)[j] == t[j - 1];
      if i > 0 {
        assert ([h] + t)[i] == t[i - 1];
      }
    }
  }

  /** A match whose id is at most every id of `t` and at most `m`'s is at
      most every id of any rearrangement of `t` plus `m`. */
  lemma HeadBound(h: Match, t: seq<Match>, m: Match, rest: seq<Match>)
    requires IdSorted([h] + t) && h.id <= m.id
    requires multiset(rest) == multiset(t) + multiset{m}
    ensures forall x :: x in rest ==> h.id <= x.id
  {
    forall x | x in rest ensures h.id <= x.id {
      assert x in multiset(rest);
      if x != m {
        assert x in multiset(t);
        var k :| 0 <= k < |t| && t[k] == x;
        assert ([h] + t)[0] == h && ([h] + t)[k + 1] == x;
      }
    }
  }

  /** `m` put into id-sorted `s` before the first match with a larger or equal id. */
  function InsertById(m: Match, s: seq<Match>): (r: seq<Match>)
    requires IdSorted(s)
    ensures multiset(r) == multiset(s) + multiset{m}
    ensures IdSorted(r)
  {
    if s == [] then [m]
    else if m.id <= s[0].id then
      ConsIdSorted(m, s);
      [m] + s
    else
      var rest := InsertById(m, s[1..]);
      assert s == [s[0]] + s[1..];
      HeadBound(s[0], s[1..], m, rest);
      ConsIdSorted(s[0], rest);
      [s[0]] + rest
  }

  /** The rows in ascending id order: the database's ordering, as a function of the rows. */
  function OrderById(s: seq<Match>): (r: seq<Match>)
    ensures multiset(r) == multiset(s)
    ensures IdSorted(r)
  {
    if s == [] then []
    else
      assert s == [s[0]] + s[1..];
      InsertById(s[0], OrderById(s[1..]))
  }

  /** Filtering id-sorted matches keeps them id-sorted. */
  lemma {:induction false} FilterIdSorted(s: seq<Match>, keep: Match -> bool)
    requires IdSorted(s)
    ensures IdSorted(Tables.Filter(s, keep))
  {
    if s != [] {
      FilterIdSorted(s[1..], keep);
      var rest := Tables.Filter(s[1..], keep);
      forall x | x in rest ensures s[0].id <= x.id {
        Tables.FilterMembers(s[1..], keep, x);
      }
    }
  }

  /** Every wanted match, in ascending id order, before the limit. */
  function Picked(matches: seq<Match>, f: Flags): (r: seq<Match>)
    ensures |r| <= |matches|
    ensures IdSorted(r)
    ensures forall m :: m in r <==> m in matches && Wanted(f, m)
  {
    var ordered := OrderById(matches);
    var r := Tables.Filter(ordered, (m: Match) => Wanted(f, m));
    FilterIdSorted(ordered, (m: Match) => Wanted(f, m));
    assert |multiset(ordered)| == |multiset(matches)|;
    forall m ensures m in r <==> m in matches && Wanted(f, m) {
      Tables.FilterMembers(ordered, (m: Match) => Wanted(f, m), m);
      assert m in ordered <==> m in multiset(ordered);
    }
    r
  }

  /** `query.limit(limit)` when the limit is positive. */
  function Limited(s: seq<Match>, limit: Option<int>): (r: seq<Match>)
    ensures |r| <= |s|
    ensures limit.Some? && limit.value > 0 ==> |r| <= limit.value
    ensures forall i :: 0 <= i < |r| ==> r[i] == s[i]
  {
    if limit.Some? && limit.value > 0 && limit.value < |s| then s[..limit.value] else s
  }

  /** A match of an id-sorted sequence that the limit cuts off comes after
      every kept one, and the limit was reached. */
  lemma LimitedComplete(s: seq<Match>, limit: Option<int>, m: Match)
    requires IdSorted(s) && m in s && m !in Limited(s, limit)
    ensures limit.Some? && limit.value > 0 && |Limited(s, limit)| == limit.value
    ensures forall i :: 0 <= i < |Limited(s, limit)| ==> Limited(s, limit)[i].id <= m.id
  {
    var j :| 0 <= j < |s| && s[j] == m;
    assert j >= |Limited(s, limit)|;
  }

  /** The matches the command selects: those with a stored Valorant match id,
      only the given one when a match id is set, in ascending id order, at
      most `limit` when it is positive. A wanted match is left out only when
      the limit is reached, and then it comes after every selected match. */
  function Selected(matches: seq<Match>, f: Flags): (r: seq<Match>)
    ensures |r| <= |matches|
    ensures forall i :: 0 <= i < |r| ==> r[i].valorantMatchId.Some? && r[i] in matches
    ensures f.matchId.Some? && f.matchId.value != 0 ==> forall i :: 0 <= i < |r| ==> r[i].id == f.matchId.value
    ensures f.limit.Some? && f.limit.value > 0 ==> |r| <= f.limit.value
    ensures IdSorted(r)
    ensures forall m :: m in matches && Wanted(f, m) && m !in r ==>
      f.limit.Some? && f.limit.value > 0 && |r| == f.limit.value && forall i :: 0 <= i < |r| ==> r[i].id <= m.id
  {
    var picked := Picked(matches, f);
    var r := Limited(picked, f.limit);
    forall i | 0 <= i < |r| ensures r[i] in picked {
      assert r[i] == picked[i];
    }
    forall m | m in matches && Wanted(f, m) && m !in r
      ensures f.limit.Some? && f.limit.value > 0 && |r| == f.limit.value && forall i :: 0 <= i < |r| ==> r[i].id <= m.id
    {
      LimitedComplete(picked, f.limit, m);
    }
    r
  }

  datatype Report = NoMatches | Done(updated: nat, failed: nat, totalSyncedRows: nat)

  datatype Tally = Tally(updated: nat, failed: nat, totalSyncedRows: nat)

  /** The loop over the selected matches: a match whose attempts fail counts as failed and the loop goes on. */
  function SyncAll(ms: seq<Match>, sync: (Match, nat) -> SyncCall, maxAttempts: nat): (t: Tally)
    ensures t.updated + t.failed == |ms|
  {
    if ms == [] then Tally(0, 0, 0)
    else
      var r := Retry(ms[0], sync, maxAttempts, 1);
      var rest := SyncAll(ms[1..], sync, maxAttempts);
      match r.outcome
      case Ok(result) => Tally(rest.updated + 1, rest.failed, rest.totalSyncedRows + result.syncedPlayersRows)
      case Err(_) => Tally(rest.updated, rest.failed + 1, rest.totalSyncedRows)
  }

  /** After the first i matches, the counts so far plus those of the rest make the whole tally. */
  ghost predicate Tallied(ms: seq<Match>, i: nat, sync: (Match, nat) -> SyncCall, maxAttempts: nat, updated: nat, failed: nat, total: nat)
    requires i <= |ms|
  {
    var rest := SyncAll(ms[i..], sync, maxAttempts);
    SyncAll(ms, sync, maxAttempts) == Tally(updated + rest.updated, failed + rest.failed, total + rest.totalSyncedRows)
  }

  /** Counting the outcome of match i keeps the tally whole. */
  lemma TallyStep(ms: seq<Match>, i: nat, sync: (Match, nat) -> SyncCall, maxAttempts: nat, updated: nat, failed: nat, total: nat)
    requires i < |ms| && Tallied(ms, i, sync, maxAttempts, updated, failed, total)
    ensures match Retry(ms[i], sync, maxAttempts, 1).outcome
      case Ok(result) => Tallied(ms, i + 1, sync, maxAttempts, updated + 1, failed, total + result.syncedPlayersRows)
      case Err(_) => Tallied(ms, i + 1, sync, maxAttempts, updated, failed + 1, total)
  {
    assert ms[i..][0] == ms[i] && ms[i..][1..] == ms[i + 1..];
  }

  /** With every match counted, the counts are the tally. */
  lemma TallyDone(ms: seq<Match>, sync: (Match, nat) -> SyncCall, maxAttempts: nat, updated: nat, failed: nat, total: nat)
    requires Tallied(ms, |ms|, sync, maxAttempts, updated, failed, total)
    ensures SyncAll(ms, sync, maxAttempts) == Tally(updated, failed, total)
  {
    assert ms[|ms|..] == [];
  }

  /** The command's state: the start of the last sync request (0 before the
      first), the clock, and, as a record of what happened, every request
      start and every retry wait. */
  class Resyncer {
    var lastRequestStartedAt: int
    var clockMs: int
    ghost var requestStarts: seq<int>
    ghost var retriedErrors: seq<Thrown>

    ghost predicate Valid()
      reads this
    {
      clockMs > 0
      && (requestStarts == [] <==> lastRequestStartedAt == 0)
      && (requestStarts != [] ==> lastRequestStartedAt == requestStarts[|requestStarts| - 1] <= clockMs)
    }

    /** Consecutive sync requests start at least `minIntervalMs` apart. */
    ghost predicate Spaced(minIntervalMs: int)
      reads this
    {
      forall k :: 0 < k < |requestStarts| ==> requestStarts[k - 1] + minIntervalMs <= requestStarts[k]
    }

    constructor (startMs: int)
      requires startMs > 0
      ensures Valid() && Spaced(0) && clockMs == startMs && requestStarts == [] && retriedErrors == []
    {
      lastRequestStartedAt := 0;
      clockMs := startMs;
      requestStarts := [];
      retriedErrors := [];
    }

    method Sleep(ms: nat)
      modifies this
      ensures clockMs == old(clockMs) + ms
      ensures lastRequestStartedAt == old(lastRequestStartedAt) && requestStarts == old(requestStarts)
      ensures retriedErrors == old(retriedErrors)
    {
      clockMs := clockMs + ms;
    }

    /** `waitForInterval`: no wait before the first request; otherwise sleep
      for what is left of the interval since the last request started. */
    method WaitForInterval(minIntervalMs: int)
      requires Valid()
      modifies this
      ensures Valid() && requestStarts == old(requestStarts) && retriedErrors == old(retriedErrors)
      ensures lastRequestStartedAt == old(lastRequestStartedAt)
      ensures old(lastRequestStartedAt) == 0 ==> clockMs == old(clockMs)
      ensures old(lastRequestStartedAt) != 0 ==>
        clockMs == old(clockMs) + Max(0, minIntervalMs - (old(clockMs) - old(lastRequestStartedAt)))
      ensures lastRequestStartedAt != 0 ==> lastRequestStartedAt + minIntervalMs <= clockMs
    {
      if lastRequestStartedAt == 0 {
        return;
      }
      var elapsed := clockMs - lastRequestStartedAt;
      var waitMs := minIntervalMs - elapsed;
      if waitMs > 0 {
        Sleep(waitMs);
      }
    }

    /** One attempt: wait for the interval, start the request, let it run. */
    method Request(m: Match, sync: (Match, nat) -> SyncCall, minIntervalMs: int, attempt: nat) returns (call: SyncCall)
      requires Valid() && Spaced(minIntervalMs)
      modifies this
      ensures Valid() && Spaced(minIntervalMs) && call == sync(m, attempt)
      ensures requestStarts == old(requestStarts) + [lastRequestStartedAt] && retriedErrors == old(retriedErrors)
      ensures clockMs == lastRequestStartedAt + call.tookMs
    {
      WaitForInterval(minIntervalMs);
      lastRequestStartedAt := clockMs;
      requestStarts := requestStarts + [clockMs];
      call := sync(m, attempt);
      clockMs := clockMs + call.tookMs;
    }

    /** One pass of the retry loop: a spaced request, then, when it failed with
      a rate-limit error and attempts are left, the wait before the next one. */
    method TryOnce(m: Match, sync: (Match, nat) -> SyncCall, minIntervalMs: int, maxAttempts: nat, attempt: nat)
      returns (call: SyncCall, again: bool)
      requires Valid() && Spaced(minIntervalMs)
      modifies this
      ensures Valid() && Spaced(minIntervalMs)
      ensures call == sync(m, attempt) && again == ShouldRetry(call, maxAttempts, attempt)
      ensures requestStarts == old(requestStarts) + [lastRequestStartedAt]
      ensures again ==> retriedErrors == old(retriedErrors) + [call.outcome.error]
      ensures !again ==> retriedErrors == old(retriedErrors)
    {
      call := Request(m, sync, minIntervalMs, attempt);
      again := ShouldRetry(call, maxAttempts, attempt);
      if again {
        var retryAfterMs := RetryWait(MessageOf(call.outcome.error));
        retriedErrors := retriedErrors + [call.outcome.error];
        Sleep(retryAfterMs);
      }
    }

    /** `syncMatchWithRetry`: as many attempts as the rate-limit errors call
      for, up to `maxAttempts`, each request spaced from the previous one. */
    method SyncMatchWithRetry(m: Match, sync: (Match, nat) -> SyncCall, minIntervalMs: int, maxAttempts: nat)
      returns (outcome: Result<SyncResult, Thrown>)
      requires Valid() && Spaced(minIntervalMs)
      modifies this
      ensures Valid() && Spaced(minIntervalMs)
      ensures outcome == Retry(m, sync, maxAttempts, 1).outcome
      ensures |requestStarts| == |old(requestStarts)| + Retry(m, sync, maxAttempts, 1).calls
      ensures retriedErrors == old(retriedErrors) + RetriedErrors(m, sync, maxAttempts, 1)
    {
      ghost var starts0, errors0 := requestStarts, retriedErrors;
      ghost var calls, errs := 0, [];
      var attempt := 1;
      while attempt <= maxAttempts
        invariant 1 <= attempt <= maxAttempts + 1
        invariant Valid() && Spaced(minIntervalMs)
        invariant |requestStarts| == |starts0| + calls && retriedErrors == errors0 + errs
        invariant OnTrack(m, sync, maxAttempts, attempt, calls, errs)
        decreases maxAttempts + 1 - attempt
      {
        RetryProgress(m, sync, maxAttempts, attempt, calls, errs);
        var call, again := TryOnce(m, sync, minIntervalMs, maxAttempts, attempt);
        calls := calls + 1;
        if !again {
          return call.outcome;
        }
        errs := errs + [call.outcome.error];
        attempt := attempt + 1;
      }
      outcome := Err(ErrorObj("Match #" + Text.IntToString(m.id) + ": exhausted retries"));
    }

    /** The loop of `run` over the selected matches, counting updated and
        failed matches and the synced player rows. */
    method SyncEach(ms: seq<Match>, sync: (Match, nat) -> SyncCall, minIntervalMs: int, maxAttempts: nat)
      returns (updated: nat, failed: nat, total: nat)
      requires Valid() && Spaced(minIntervalMs)
      modifies this
      ensures Valid() && Spaced(minIntervalMs)
      ensures SyncAll(ms, sync, maxAttempts) == Tally(updated, failed, total)
    {
      updated, failed, total := 0, 0, 0;
      var i := 0;
      while i < |ms|
        invariant 0 <= i <= |ms|
        invariant Valid() && Spaced(minIntervalMs)
        invariant Tallied(ms, i, sync, maxAttempts, updated, failed, total)
      {
        TallyStep(ms, i, sync, maxAttempts, updated, failed, total);
        var outcome := SyncMatchWithRetry(ms[i], sync, minIntervalMs, maxAttempts);
        match outcome {
          case Ok(result) =>
            updated := updated + 1;
            total := total + result.syncedPlayersRows;
          case Err(_) =>
            failed := failed + 1;
        }
        i := i + 1;
      }
      TallyDone(ms, sync, maxAttempts, updated, failed, total);
    }

    /** `run`: nothing to do without selected matches; otherwise each match is
      synced with retries and counted as updated or failed. */
    method Run(matches: seq<Match>, f: Flags, sync: (Match, nat) -> SyncCall) returns (report: Report)
      requires Valid() && requestStarts == []
      modifies this
      ensures Valid() && Spaced(SettingsOf(f).minIntervalMs)
      ensures Selected(matches, f) == [] ==> report == NoMatches && requestStarts == []
      ensures Selected(matches, f) != [] ==>
        var t := SyncAll(Selected(matches, f), sync, SettingsOf(f).maxAttempts);
        report == Done(t.updated, t.failed, t.totalSyncedRows)
    {
      var ms := Selected(matches, f);
      if |ms| == 0 {
        return NoMatches;
      }
      var settings := SettingsOf(f);
      var updated, failed, total := SyncEach(ms, sync, settings.minIntervalMs, settings.maxAttempts);
      report := Done(updated, failed, total);
    }
  }
}

/** The `notifications:send` command: which mode runs, which matches each
    mode selects, and the loops that send one reminder per match and record
    it in `match_notifications`, keyed by (match, type). `findPairedMatch`
    and the three-argument `sendMatchReminder` it calls are oracles. */
module MatchNotifications {
  import opened Wrappers
  import opened Models
  import opened Tables

  const MS_PER_MINUTE: int := 60_000
  const MS_PER_HOUR: int := 3_600_000

  /** The command's flags; `matchId` is a number flag, and 0 counts as absent. */
  datatype Flags = Flags(test: bool, matchId: Option<int>, catchup: bool)

  datatype Mode = TestRun | ManualRun(matchId: int) | CatchupRun | WindowedRun

  /** `run`: the test flag wins, then a match id, then catch-up, else the windowed run. */
  function ModeOf(f: Flags): (mode: Mode)
    ensures mode == TestRun <==> f.test
    ensures mode.ManualRun? <==> !f.test && f.matchId.Some? && f.matchId.value != 0
    ensures mode.ManualRun? ==> mode.matchId == f.matchId.value
    ensures mode == CatchupRun <==> !f.test && (f.matchId.None? || f.matchId.value == 0) && f.catchup
    ensures mode == WindowedRun <==> !f.test && (f.matchId.None? || f.matchId.value == 0) && !f.catchup
  {
    if f.test then TestRun
    else if f.matchId.Some? && f.matchId.value != 0 then ManualRun(f.matchId.value)
    else if f.catchup then CatchupRun
    else WindowedRun
  }

  // ------------------------------------------------------------------ windows

  /** 23 to 25 hours away, both ends included. */
  predicate InDayWindow(m: Match, nowMs: int) {
    nowMs + 23 * MS_PER_HOUR <= m.scheduledAtMs <= nowMs + 25 * MS_PER_HOUR
  }

  /** 30 to 90 minutes away, both ends included. */
  predicate InHourWindow(m: Match, nowMs: int) {
    nowMs + 30 * MS_PER_MINUTE <= m.scheduledAtMs <= nowMs + MS_PER_HOUR + 30 * MS_PER_MINUTE
  }

  /** More than one hour and at most 24 hours away. */
  predicate InCatchupWindow(m: Match, nowMs: int) {
    nowMs + MS_PER_HOUR < m.scheduledAtMs <= nowMs + 24 * MS_PER_HOUR
  }

  function DayMatches(matches: seq<Match>, nowMs: int): seq<Match> {
    Filter(matches, (m: Match) => InDayWindow(m, nowMs))
  }

  function HourMatches(matches: seq<Match>, nowMs: int): seq<Match> {
    Filter(matches, (m: Match) => InHourWindow(m, nowMs))
  }

  function CatchupMatches(matches: seq<Match>, nowMs: int): seq<Match> {
    Filter(matches, (m: Match) => InCatchupWindow(m, nowMs))
  }

  /** Each query selects exactly the matches of its window, and no match is
      in both windows of the default run. */
  lemma SelectedExactly(matches: seq<Match>, nowMs: int, m: Match)
    ensures m in DayMatches(matches, nowMs) <==>
      m in matches && nowMs + 23 * MS_PER_HOUR <= m.scheduledAtMs <= nowMs + 25 * MS_PER_HOUR
    ensures m in HourMatches(matches, nowMs) <==>
      m in matches && nowMs + 30 * MS_PER_MINUTE <= m.scheduledAtMs <= nowMs + 90 * MS_PER_MINUTE
    ensures m in CatchupMatches(matches, nowMs) <==>
      m in matches && nowMs + MS_PER_HOUR < m.scheduledAtMs <= nowMs + 24 * MS_PER_HOUR
    ensures !(m in DayMatches(matches, nowMs) && m in HourMatches(matches, nowMs))
  {
    FilterMembers(matches, (m: Match) => InDayWindow(m, nowMs), m);
    FilterMembers(matches, (m: Match) => InHourWindow(m, nowMs), m);
    FilterMembers(matches, (m: Match) => InCatchupWindow(m, nowMs), m);
  }

  // ------------------------------------------------------------------ one match

  /** `findPairedMatch(match)` and `sendMatchReminder(match, type, paired)`. */
  datatype Services = Services(findPaired: Match -> Option<Match>, remind: (Match, NotificationType, Option<Match>) -> bool)

  /** A notification of type `t` exists for the match. */
  predicate Notified(rows: seq<MatchNotificationRow>, matchId: int, t: NotificationType) {
    exists i :: 0 <= i < |rows| && rows[i].matchId == matchId && rows[i].notificationType == t
  }

  /** The unique key (match_id, notification_type) of `match_notifications`. */
  ghost predicate OnePerKey(rows: seq<MatchNotificationRow>) {
    forall i, j :: 0 <= i < j < |rows| ==>
      !(rows[i].matchId == rows[j].matchId && rows[i].notificationType == rows[j].notificationType)
  }

  /** Skipped as already notified; reminder delivered and recorded; delivery
      failed; or delivered but the paired match's row broke the unique key,
      which throws and ends the command. */
  datatype StepResult = Skipped | Delivered | NotDelivered | Aborted

  /** One iteration of a reminder loop for a match, on the table as it is. */
  function Step(rows: seq<MatchNotificationRow>, svc: Services, m: Match, t: NotificationType, nowMs: int)
    : (r: (seq<MatchNotificationRow>, StepResult))
  {
    if Notified(rows, m.id, t) then (rows, Skipped)
    else
      var paired := svc.findPaired(m);
      if !svc.remind(m, t, paired) then (rows, NotDelivered)
      else
        var first := rows + [MatchNotificationRow(m.id, t, nowMs)];
        if paired.None? then (first, Delivered)
        else if Notified(first, paired.value.id, t) then (first, Aborted)
        else (first + [MatchNotificationRow(paired.value.id, t, nowMs)], Delivered)
  }

  /** A match that already has a notification of the type is skipped without
      looking for a pair or sending; after a failed send nothing is recorded;
      after a delivered one the match's row and the paired match's row are
      appended, in that order. */
  lemma StepCases(rows: seq<MatchNotificationRow>, svc: Services, m: Match, t: NotificationType, nowMs: int, other: Services)
    ensures Notified(rows, m.id, t) ==> Step(rows, svc, m, t, nowMs) == Step(rows, other, m, t, nowMs) == (rows, Skipped)
    ensures var r := Step(rows, svc, m, t, nowMs);
      !Notified(rows, m.id, t) ==>
        var paired := svc.findPaired(m);
        (r.1 == NotDelivered <==> !svc.remind(m, t, paired))
        && (r.1 == NotDelivered ==> r.0 == rows)
        && (r.1 == Delivered ==>
              r.0 == rows + [MatchNotificationRow(m.id, t, nowMs)]
                     + (if paired.Some? then [MatchNotificationRow(paired.value.id, t, nowMs)] else []))
        && (r.1 == Aborted ==> r.0 == rows + [MatchNotificationRow(m.id, t, nowMs)])
        && r.1 != Skipped
  {
  }

  /** After a step whose reminder goes out, the match has a notification of the type. */
  lemma StepRecords(rows: seq<MatchNotificationRow>, svc: Services, m: Match, t: NotificationType, nowMs: int)
    requires svc.remind(m, t, svc.findPaired(m))
    ensures Notified(Step(rows, svc, m, t, nowMs).0, m.id, t)
  {
    var r := Step(rows, svc, m, t, nowMs).0;
    if !Notified(rows, m.id, t) {
      assert r[|rows|] == MatchNotificationRow(m.id, t, nowMs);
    }
  }

  /** Appending a row whose key is not yet present keeps the key unique. */
  lemma AppendFresh(rows: seq<MatchNotificationRow>, row: MatchNotificationRow)
    requires OnePerKey(rows) && !Notified(rows, row.matchId, row.notificationType)
    ensures OnePerKey(rows + [row])
  {
    var r := rows + [row];
    forall i, j | 0 <= i < j < |r|
      ensures !(r[i].matchId == r[j].matchId && r[i].notificationType == r[j].notificationType)
    {
      if j == |rows| {
        assert r[i] == rows[i];
      }
    }
  }

  /** A step never breaks the unique key: the aborted insert is the one the key refuses. */
  lemma StepKeepsKey(rows: seq<MatchNotificationRow>, svc: Services, m: Match, t: NotificationType, nowMs: int)
    requires OnePerKey(rows)
    ensures OnePerKey(Step(rows, svc, m, t, nowMs).0)
  {
    if !Notified(rows, m.id, t) && svc.remind(m, t, svc.findPaired(m)) {
      var first := rows + [MatchNotificationRow(m.id, t, nowMs)];
      AppendFresh(rows, MatchNotificationRow(m.id, t, nowMs));
      var paired := svc.findPaired(m);
      if paired.Some? && !Notified(first, paired.value.id, t) {
        AppendFresh(first, MatchNotificationRow(paired.value.id, t, nowMs));
      }
    }
  }

  // ------------------------------------------------------------------ loops

  datatype Run = Run(rows: seq<MatchNotificationRow>, sent: nat, skipped: nat, aborted: bool)

  /** A reminder loop over the selected matches; each iteration reads the
      table as the earlier ones left it, and an abort ends the loop. */
  function RunWindow(rows: seq<MatchNotificationRow>, svc: Services, matches: seq<Match>, t: NotificationType, nowMs: int)
    : (r: Run)
    ensures r.sent + r.skipped <= |matches|
    ensures |rows| <= |r.rows| && r.rows[..|rows|] == rows
    decreases |matches|
  {
    if matches == [] then Run(rows, 0, 0, false)
    else
      var step := Step(rows, svc, matches[0], t, nowMs);
      if step.1 == Aborted then Run(step.0, 0, 0, true)
      else
        var rest := RunWindow(step.0, svc, matches[1..], t, nowMs);
        Run(rest.rows, rest.sent + (if step.1 == Delivered then 1 else 0),
            rest.skipped + (if step.1 == Skipped then 1 else 0), rest.aborted)
  }

  /** A loop keeps the unique key of the notification table. */
  lemma {:induction false} RunWindowKeepsKey(rows: seq<MatchNotificationRow>, svc: Services, matches: seq<Match>,
                                             t: NotificationType, nowMs: int)
    requires OnePerKey(rows)
    ensures OnePerKey(RunWindow(rows, svc, matches, t, nowMs).rows)
    decreases |matches|
  {
    if matches != [] {
      StepKeepsKey(rows, svc, matches[0], t, nowMs);
      var step := Step(rows, svc, matches[0], t, nowMs);
      if step.1 != Aborted {
        RunWindowKeepsKey(step.0, svc, matches[1..], t, nowMs);
      }
    }
  }

  /** After a loop that ran to the end, every selected match has a
      notification of the type unless its reminder was not delivered: the
      loop records each delivered reminder. */
  lemma {:induction false} RunWindowRecords(rows: seq<MatchNotificationRow>, svc: Services, matches: seq<Match>,
                                            t: NotificationType, nowMs: int, k: nat)
    requires k < |matches|
    requires !RunWindow(rows, svc, matches, t, nowMs).aborted
    requires svc.remind(matches[k], t, svc.findPaired(matches[k]))
    ensures Notified(RunWindow(rows, svc, matches, t, nowMs).rows, matches[k].id, t)
    decreases |matches|
  {
    var step := Step(rows, svc, matches[0], t, nowMs);
    var r := RunWindow(rows, svc, matches, t, nowMs);
    var rest := RunWindow(step.0, svc, matches[1..], t, nowMs);
    assert r.rows == rest.rows;
    if k == 0 {
      StepRecords(rows, svc, matches[0], t, nowMs);
      var i :| 0 <= i < |step.0| && step.0[i].matchId == matches[0].id && step.0[i].notificationType == t;
      assert rest.rows[..|step.0|] == step.0;
      assert rest.rows[i] == step.0[i];
    } else {
      assert matches[1..][k - 1] == matches[k];
      RunWindowRecords(step.0, svc, matches[1..], t, nowMs, k - 1);
    }
  }

  /** One iteration of a loop, in place on the table. */
  method RemindOne(notes: Table<MatchNotificationRow>, svc: Services, m: Match, t: NotificationType, nowMs: int)
    returns (result: StepResult)
    modifies notes
    ensures (notes.rows, result) == Step(old(notes.rows), svc, m, t, nowMs)
  {
    if Notified(notes.rows, m.id, t) {
      return Skipped;
    }
    var paired := svc.findPaired(m);
    var success := svc.remind(m, t, paired);
    if !success {
      return NotDelivered;
    }
    notes.Insert(MatchNotificationRow(m.id, t, nowMs));
    result := Delivered;
    if paired.Some? {
      if Notified(notes.rows, paired.value.id, t) {
        return Aborted;
      }
      notes.Insert(MatchNotificationRow(paired.value.id, t, nowMs));
    }
  }

  /** The loop invariant after `i` iterations: an aborted loop has reached the
      whole result; otherwise the rest of the loop, added to the counters so
      far, gives it. */
  ghost predicate OnCourse(total: Run, rows: seq<MatchNotificationRow>, svc: Services, matches: seq<Match>,
                           t: NotificationType, nowMs: int, i: nat, sent: nat, skipped: nat, aborted: bool)
    requires i <= |matches|
  {
    if aborted then total == Run(rows, sent, skipped, true)
    else
      var rest := RunWindow(rows, svc, matches[i..], t, nowMs);
      total == Run(rest.rows, sent + rest.sent, skipped + rest.skipped, rest.aborted)
  }

  /** One iteration carries the loop invariant: run the step, count its result, stop on an abort. */
  lemma Advance(total: Run, rows: seq<MatchNotificationRow>, svc: Services, matches: seq<Match>,
                t: NotificationType, nowMs: int, i: nat, sent: nat, skipped: nat)
    requires i < |matches| && OnCourse(total, rows, svc, matches, t, nowMs, i, sent, skipped, false)
    ensures var step := Step(rows, svc, matches[i], t, nowMs);
      OnCourse(total, step.0, svc, matches, t, nowMs, i + 1, sent + (if step.1 == Delivered then 1 else 0),
               skipped + (if step.1 == Skipped then 1 else 0), step.1 == Aborted)
  {
    assert matches[i..][0] == matches[i] && matches[i..][1..] == matches[i + 1..];
  }

  /** The invariant holds before the loop, and on exit it gives the loop's result. */
  lemma OnCourseBounds(total: Run, rows: seq<MatchNotificationRow>, svc: Services, matches: seq<Match>,
                       t: NotificationType, nowMs: int, i: nat, sent: nat, skipped: nat, aborted: bool)
    ensures OnCourse(RunWindow(rows, svc, matches, t, nowMs), rows, svc, matches, t, nowMs, 0, 0, 0, false)
    ensures i <= |matches| && (i == |matches| || aborted) && OnCourse(total, rows, svc, matches, t, nowMs, i, sent, skipped, aborted)
      ==> total == Run(rows, sent, skipped, aborted)
  {
    assert matches[0..] == matches;
    assert matches[|matches|..] == [];
  }

  /** A reminder loop with its `sent` and `skipped` counters. */
  method RemindAll(notes: Table<MatchNotificationRow>, svc: Services, matches: seq<Match>, t: NotificationType, nowMs: int)
    returns (sent: nat, skipped: nat, aborted: bool)
    modifies notes
    ensures Run(notes.rows, sent, skipped, aborted) == RunWindow(old(notes.rows), svc, matches, t, nowMs)
  {
    ghost var total := RunWindow(notes.rows, svc, matches, t, nowMs);
    OnCourseBounds(total, notes.rows, svc, matches, t, nowMs, 0, 0, 0, false);
    sent, skipped, aborted := 0, 0, false;
    var i := 0;
    while i < |matches| && !aborted
      invariant 0 <= i <= |matches|
      invariant OnCourse(total, notes.rows, svc, matches, t, nowMs, i, sent, skipped, aborted)
    {
      Advance(total, notes.rows, svc, matches, t, nowMs, i, sent, skipped);
      var result := RemindOne(notes, svc, matches[i], t, nowMs);
      if result == Aborted {
        aborted := true;
      } else if result == Delivered {
        sent := sent + 1;
      } else if result == Skipped {
        skipped := skipped + 1;
      }
      i := i + 1;
    }
    OnCourseBounds(total, notes.rows, svc, matches, t, nowMs, i, sent, skipped, aborted);
  }

  /** Rows of other types never decide a step: the loops and the manual
      modes deduplicate only against notifications of their own type. */
  lemma OtherTypesIgnored(rows: seq<MatchNotificationRow>, extra: seq<MatchNotificationRow>, svc: Services, m: Match,
                          t: NotificationType, nowMs: int)
    requires forall i :: 0 <= i < |extra| ==> extra[i].notificationType != t
    ensures Step(rows + extra, svc, m, t, nowMs).1 == Step(rows, svc, m, t, nowMs).1
  {
    var all := rows + extra;
    forall id | true ensures Notified(all, id, t) <==> Notified(rows, id, t) {
      if Notified(all, id, t) {
        var i :| 0 <= i < |all| && all[i].matchId == id && all[i].notificationType == t;
        assert i < |rows| && rows[i] == all[i];
      }
      if Notified(rows, id, t) {
        var i :| 0 <= i < |rows| && rows[i].matchId == id && rows[i].notificationType == t;
        assert all[i] == rows[i];
      }
    }
    var first := rows + [MatchNotificationRow(m.id, t, nowMs)];
    var firstAll := all + [MatchNotificationRow(m.id, t, nowMs)];
    forall id | true ensures Notified(firstAll, id, t) <==> Notified(first, id, t) {
      if Notified(firstAll, id, t) {
        var i :| 0 <= i < |firstAll| && firstAll[i].matchId == id && firstAll[i].notificationType == t;
        if i < |rows| {
          assert first[i] == firstAll[i];
        } else {
          assert i == |all| && first[|rows|] == firstAll[i];
        }
      }
      if Notified(first, id, t) {
        var i :| 0 <= i < |first| && first[i].matchId == id && first[i].notificationType == t;
        if i < |rows| {
          assert firstAll[i] == first[i];
        } else {
          assert firstAll[|all|] == first[i];
        }
      }
    }
  }

  // ------------------------------------------------------------------ modes

  /** The outcome of a manual notification for one match. */
  datatype ManualResult = MatchNotFound | PastMatch | ManualStep(result: StepResult)

  /** `Match.find(id)`. */
  function FindMatch(matches: seq<Match>, id: int): (r: Option<Match>)
    ensures r.None? <==> forall i :: 0 <= i < |matches| ==> matches[i].id != id
    ensures r.Some? ==> r.value in matches && r.value.id == id
  {
    var i := Tables.FirstIndex(matches, (m: Match) => m.id == id);
    if i.None? then None else Some(matches[i.value])
  }

  /** `sendMatchNotification`: an unknown or past match is refused; otherwise
      one 'manual' step, which skips a match already notified manually. */
  function ManualNotification(rows: seq<MatchNotificationRow>, svc: Services, matches: seq<Match>, id: int, nowMs: int)
    : (r: (seq<MatchNotificationRow>, ManualResult))
  {
    var m := FindMatch(matches, id);
    if m.None? then (rows, MatchNotFound)
    else if m.value.scheduledAtMs <= nowMs then (rows, PastMatch)
    else
      var step := Step(rows, svc, m.value, Manual, nowMs);
      (step.0, ManualStep(step.1))
  }

  /** The fake match of the test mode: a scrim against 'Test Opponent' on Ascent, 24 hours from now. */
  function TestMatch(nowMs: int): Match {
    Match(0, nowMs + 24 * MS_PER_HOUR, Some("Test Opponent"), Some("Ascent"), "scrim", None, None, None, None, None)
  }

  datatype Report = TestReport(ok: bool) | ManualReport(result: ManualResult) | LoopReport(sent: nat, skipped: nat) | AbortedRun

  /** The whole command as a function of the notification table before it.
      The test mode records nothing; the manual mode refuses an unknown or past
      match without touching the table; each loop counts at most one sent or
      skipped per selected match; and the table only grows. */
  function Command(rows: seq<MatchNotificationRow>, svc: Services, flags: Flags, matches: seq<Match>, nowMs: int)
    : (r: (seq<MatchNotificationRow>, Report))
    ensures |rows| <= |r.0| && r.0[..|rows|] == rows
    ensures flags.test ==> r == (rows, TestReport(svc.remind(TestMatch(nowMs), Day, None)))
    ensures r.1.ManualReport? <==> ModeOf(flags).ManualRun?
    ensures r.1 == ManualReport(MatchNotFound) ==> r.0 == rows && FindMatch(matches, flags.matchId.value).None?
    ensures r.1 == ManualReport(PastMatch) ==>
      r.0 == rows && FindMatch(matches, flags.matchId.value).Some?
      && FindMatch(matches, flags.matchId.value).value.scheduledAtMs <= nowMs
    ensures r.1 == ManualReport(ManualStep(Skipped)) ==> r.0 == rows && Notified(rows, flags.matchId.value, Manual)
    ensures r.1.LoopReport? && ModeOf(flags) == CatchupRun ==> r.1.sent + r.1.skipped <= |CatchupMatches(matches, nowMs)|
    ensures r.1.LoopReport? && ModeOf(flags) == WindowedRun ==>
      r.1.sent + r.1.skipped <= |DayMatches(matches, nowMs)| + |HourMatches(matches, nowMs)|
  {
    match ModeOf(flags)
    case TestRun => (rows, TestReport(svc.remind(TestMatch(nowMs), Day, None)))
    case ManualRun(id) =>
      var manual := ManualNotification(rows, svc, matches, id, nowMs);
      (manual.0, ManualReport(manual.1))
    case CatchupRun =>
      var run := RunWindow(rows, svc, CatchupMatches(matches, nowMs), Manual, nowMs);
      (run.rows, if run.aborted then AbortedRun else LoopReport(run.sent, run.skipped))
    case WindowedRun =>
      var day := RunWindow(rows, svc, DayMatches(matches, nowMs), Day, nowMs);
      if day.aborted then (day.rows, AbortedRun)
      else
        var hour := RunWindow(day.rows, svc, HourMatches(matches, nowMs), Hour, nowMs);
        assert hour.rows[..|rows|] == day.rows[..|rows|] by {
          assert hour.rows[..|day.rows|] == day.rows;
        }
        (hour.rows, if hour.aborted then AbortedRun else LoopReport(day.sent + hour.sent, day.skipped + hour.skipped))
  }

  /** No mode ever records a second notification of a type for a match. */
  lemma CommandKeepsKey(rows: seq<MatchNotificationRow>, svc: Services, flags: Flags, matches: seq<Match>, nowMs: int)
    requires OnePerKey(rows)
    ensures OnePerKey(Command(rows, svc, flags, matches, nowMs).0)
  {
    match ModeOf(flags)
    case TestRun =>
    case ManualRun(id) =>
      var m := FindMatch(matches, id);
      if m.Some? {
        StepKeepsKey(rows, svc, m.value, Manual, nowMs);
      }
    case CatchupRun =>
      RunWindowKeepsKey(rows, svc, CatchupMatches(matches, nowMs), Manual, nowMs);
    case WindowedRun =>
      RunWindowKeepsKey(rows, svc, DayMatches(matches, nowMs), Day, nowMs);
      var day := RunWindow(rows, svc, DayMatches(matches, nowMs), Day, nowMs);
      RunWindowKeepsKey(day.rows, svc, HourMatches(matches, nowMs), Hour, nowMs);
  }

  /** `run`, in place on the notification table. */
  method SendNotifications(notes: Table<MatchNotificationRow>, svc: Services, flags: Flags, matches: seq<Match>, nowMs: int)
    returns (report: Report)
    modifies notes
    ensures (notes.rows, report) == Command(old(notes.rows), svc, flags, matches, nowMs)
  {
    match ModeOf(flags)
    case TestRun =>
      var ok := svc.remind(TestMatch(nowMs), Day, None);
      report := TestReport(ok);
    case ManualRun(id) =>
      var m := FindMatch(matches, id);
      if m.None? {
        return ManualReport(MatchNotFound);
      }
      if m.value.scheduledAtMs <= nowMs {
        return ManualReport(PastMatch);
      }
      var result := RemindOne(notes, svc, m.value, Manual, nowMs);
      report := ManualReport(ManualStep(result));
    case CatchupRun =>
      var sent, skipped, aborted := RemindAll(notes, svc, CatchupMatches(matches, nowMs), Manual, nowMs);
      report := if aborted then AbortedRun else LoopReport(sent, skipped);
    case WindowedRun =>
      var daySent, daySkipped, dayAborted := RemindAll(notes, svc, DayMatches(matches, nowMs), Day, nowMs);
      if dayAborted {
        return AbortedRun;
      }
      var hourSent, hourSkipped, hourAborted := RemindAll(notes, svc, HourMatches(matches, nowMs), Hour, nowMs);
      report := if hourAborted then AbortedRun else LoopReport(daySent + hourSent, daySkipped + hourSkipped);
  }
}

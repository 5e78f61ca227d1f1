/** The cooldown both nudge services read from their audit logs: the latest
    'sent' row, ordered by `sentAt` descending (a NULL `sentAt` last, as MySQL
    and SQLite order it) and then by id descending, anchors a 24-hour window. */
module NudgeLog {
  import opened Wrappers

  const MS_PER_HOUR: int := 3_600_000
  const COOLDOWN_HOURS: int := 24
  const COOLDOWN_MS: int := COOLDOWN_HOURS * MS_PER_HOUR

  /** The two timestamps of a log row that the cooldown reads. */
  datatype Stamp = Stamp(sentAtMs: Option<int>, createdAtMs: int)

  /** The stamps of log rows, in order; `stamp` reads a row's two timestamps. */
  function StampsOf<R>(rows: seq<R>, stamp: R -> Stamp): (stamps: seq<Stamp>)
    ensures |stamps| == |rows|
    ensures forall i :: 0 <= i < |rows| ==> stamps[i] == stamp(rows[i])
  {
    seq(|rows|, i requires 0 <= i < |rows| => stamp(rows[i]))
  }

  /** `a` comes no later than `b` under `ORDER BY sentAt DESC`, NULL being the smallest value. */
  predicate SortsFirst(a: Option<int>, b: Option<int>) {
    b.None? || (a.Some? && a.value >= b.value)
  }

  /** The position of the row `.first()` returns, the rows being listed in id
      order: no row has a later `sentAt`, and every row after it (a larger
      id) has a strictly earlier one. */
  function Latest(stamps: seq<Stamp>): (r: Option<nat>)
    ensures r.Some? <==> stamps != []
    ensures r.Some? ==> r.value < |stamps|
    ensures r.Some? ==> forall i :: 0 <= i < |stamps| ==> SortsFirst(stamps[r.value].sentAtMs, stamps[i].sentAtMs)
    ensures r.Some? ==> forall i :: r.value < i < |stamps| ==> !SortsFirst(stamps[i].sentAtMs, stamps[r.value].sentAtMs)
  {
    if stamps == [] then None
    else
      var n := |stamps| - 1;
      var prev := Latest(stamps[..n]);
      if prev.None? || SortsFirst(stamps[n].sentAtMs, stamps[prev.value].sentAtMs) then Some(n) else prev
  }

  /** `lastSent?.sentAt ?? lastSent?.createdAt ?? null`. */
  function Anchor(stamps: seq<Stamp>): (r: Option<int>)
    ensures r.None? <==> stamps == []
  {
    match Latest(stamps)
    case None => None
    case Some(i) => Some(stamps[i].sentAtMs.GetOr(stamps[i].createdAtMs))
  }

  /** The end of the cooldown window, if any sent row exists. */
  function CooldownUntil(stamps: seq<Stamp>): (r: Option<int>)
    ensures r.None? <==> stamps == []
  {
    match Anchor(stamps)
    case None => None
    case Some(a) => Some(a + COOLDOWN_MS)
  }

  /** `cooldownUntil > now`. */
  predicate OnCooldown(stamps: seq<Stamp>, nowMs: int) {
    CooldownUntil(stamps).Some? && CooldownUntil(stamps).value > nowMs
  }

  /** When every sent row carries its `sentAt` (the services always set it), the
      player is on cooldown exactly when some sent row is less than 24 hours old. */
  lemma OnCooldownWhenStamped(stamps: seq<Stamp>, nowMs: int)
    requires forall i :: 0 <= i < |stamps| ==> stamps[i].sentAtMs.Some?
    ensures OnCooldown(stamps, nowMs) <==>
      exists i :: 0 <= i < |stamps| && stamps[i].sentAtMs.value + COOLDOWN_MS > nowMs
  {
    if stamps != [] {
      var j := Latest(stamps).value;
      if exists i :: 0 <= i < |stamps| && stamps[i].sentAtMs.value + COOLDOWN_MS > nowMs {
        var i :| 0 <= i < |stamps| && stamps[i].sentAtMs.value + COOLDOWN_MS > nowMs;
        assert SortsFirst(stamps[j].sentAtMs, stamps[i].sentAtMs);
      }
      if OnCooldown(stamps, nowMs) {
        assert stamps[j].sentAtMs.value + COOLDOWN_MS > nowMs;
      }
    }
  }
}

/** The weekly availability page: a Monday-to-Sunday grid of the viewer's
    local hours, each cell showing whether its UTC slot is marked available,
    and the toggle that upserts one UTC slot. */
module AvailabilityController {
  import opened Wrappers
  import opened Models
  import opened Tables
  import opened Forms
  import opened Timezone
  import UserModel

  /** The local days of the grid, Monday first. */
  const DAYS: seq<int> := [1, 2, 3, 4, 5, 6, 0]

  /** The column headers of the grid: the afternoon and evening hours. */
  function HeaderHours(): (r: seq<int>)
    ensures |r| == 12 && r[0] == 12 && r[11] == 23
    ensures forall i :: 0 < i < |r| ==> r[i] == r[i - 1] + 1
  {
    seq(12, i => i + 12)
  }

  /** The UTC slots a user has marked available: every slot of one of the
      user's rows marked available, and nothing else. */
  function AvailableSlots(rows: seq<(SlotKey, bool)>, userId: int): (r: set<DayHour>)
    ensures forall row :: row in rows && row.0.userId == userId && row.1 ==> DayHour(row.0.dayOfWeek, row.0.hour) in r
    ensures forall d :: d in r ==>
      exists row :: row in rows && row.0.userId == userId && row.1 && d == DayHour(row.0.dayOfWeek, row.0.hour)
  {
    set r | r in rows && r.0.userId == userId && r.1 :: DayHour(r.0.dayOfWeek, r.0.hour)
  }

  datatype GridCell = GridCell(localHour: int, utc: Option<DayHour>, isAvailable: bool, displayHour: string)

  datatype GridDay = GridDay(dayOfWeek: int, dayName: Option<string>, hours: seq<GridCell>)

  /** The cell of one local hour: available when its UTC slot is. A zone the
      date library rejects has no UTC slot and shows nothing available. */
  function Cell(localDay: int, localHour: int, tz: Zone, slots: set<DayHour>): (c: GridCell)
    ensures c.isAvailable <==> ToUtc(localDay, localHour, tz).Some? && ToUtc(localDay, localHour, tz).value in slots
  {
    var utc := ToUtc(localDay, localHour, tz);
    GridCell(localHour, utc, utc.Some? && utc.value in slots, FormatHour(localHour))
  }

  /** The grid of one user's zone and slots. */
  ghost predicate IsGrid(grid: seq<GridDay>, tz: Zone, slots: set<DayHour>) {
    |grid| == 7
    && forall d :: 0 <= d < 7 ==>
      (grid[d].dayOfWeek == DAYS[d] && grid[d].dayName == DayName(DAYS[d]) && |grid[d].hours| == 24
       && forall h :: 0 <= h < 24 ==> grid[d].hours[h] == Cell(DAYS[d], h, tz, slots))
  }

  /** The rows of one local day, from the per-day hour mapping. */
  method DayRow(localDay: int, tz: Zone, slots: set<DayHour>) returns (row: GridDay)
    ensures row.dayOfWeek == localDay && row.dayName == DayName(localDay) && |row.hours| == 24
    ensures forall h :: 0 <= h < 24 ==> row.hours[h] == Cell(localDay, h, tz, slots)
  {
    var mapping := GetLocalHoursMapping(localDay, tz);
    var cells := seq(24, h requires 0 <= h < 24 =>
      GridCell(mapping[h].localHour, mapping[h].utc,
               mapping[h].utc.Some? && mapping[h].utc.value in slots, FormatHour(mapping[h].localHour)));
    row := GridDay(localDay, DayName(localDay), cells);
  }

  /** `days.map(...)`: one row per local day. */
  method BuildGrid(tz: Zone, slots: set<DayHour>) returns (grid: seq<GridDay>)
    ensures IsGrid(grid, tz, slots)
  {
    grid := [];
    var d := 0;
    while d < 7
      invariant 0 <= d <= 7 && |grid| == d
      invariant forall e :: 0 <= e < d ==>
        (grid[e].dayOfWeek == DAYS[e] && grid[e].dayName == DayName(DAYS[e]) && |grid[e].hours| == 24
         && forall h :: 0 <= h < 24 ==> grid[e].hours[h] == Cell(DAYS[e], h, tz, slots))
    {
      var row := DayRow(DAYS[d], tz, slots);
      grid := grid + [row];
      d := d + 1;
    }
  }

  /** `index`: the viewer's grid over their own slots. */
  method Index(slotRows: seq<(SlotKey, bool)>, viewer: UserModel.User) returns (grid: seq<GridDay>)
    ensures IsGrid(grid, viewer.timezone, AvailableSlots(slotRows, viewer.id))
  {
    grid := BuildGrid(viewer.timezone, AvailableSlots(slotRows, viewer.id));
  }

  /** A cell shows available exactly when the user has a row for its UTC slot marked available. */
  lemma CellAvailableIffRow(grid: seq<GridDay>, rows: seq<(SlotKey, bool)>, u: UserModel.User, d: int, h: int)
    requires IsGrid(grid, u.timezone, AvailableSlots(rows, u.id))
    requires 0 <= d < 7 && 0 <= h < 24
    ensures grid[d].hours[h].isAvailable <==>
      (grid[d].hours[h].utc.Some? &&
       exists r :: r in rows && r == (SlotKey(u.id, grid[d].hours[h].utc.value.dayOfWeek, grid[d].hours[h].utc.value.hour), true))
  {
    var c := grid[d].hours[h];
    if c.isAvailable {
      var s := c.utc.value;
      var r :| r in rows && r.0.userId == u.id && r.1 && DayHour(r.0.dayOfWeek, r.0.hour) == s;
      assert r == (SlotKey(u.id, s.dayOfWeek, s.hour), true);
    }
  }

  /** Two local hours of the grid's days with the same UTC slot are the same hour. */
  lemma UtcSlotUnique(tz: Zone, s: DayHour, d1: int, h1: int, d2: int, h2: int)
    requires tz.Fixed? && 0 <= d1 < 7 && 0 <= h1 < 24 && 0 <= d2 < 7 && 0 <= h2 < 24
    requires ToUtc(DAYS[d1], h1, tz) == Some(s) && ToUtc(DAYS[d2], h2, tz) == Some(s)
    ensures d1 == d2 && h1 == h2
  {
    LocalOfUtc(DAYS[d1], h1, tz);
    LocalOfUtc(DAYS[d2], h2, tz);
  }

  /** Under a valid zone every UTC slot of the week is shown by exactly one
      cell: the grid is the whole week, each hour once. */
  lemma GridCoversWeek(grid: seq<GridDay>, tz: Zone, slots: set<DayHour>, s: DayHour)
    requires tz.Fixed? && IsGrid(grid, tz, slots) && InWeek(s)
    ensures exists d, h :: 0 <= d < 7 && 0 <= h < 24 && grid[d].hours[h].utc == Some(s)
    ensures forall d1, h1, d2, h2 :: (0 <= d1 < 7 && 0 <= h1 < 24 && 0 <= d2 < 7 && 0 <= h2 < 24
      && grid[d1].hours[h1].utc == Some(s) && grid[d2].hours[h2].utc == Some(s)) ==> d1 == d2 && h1 == h2
  {
    var l := ToLocal(s.dayOfWeek, s.hour, tz).value;
    UtcOfLocal(s.dayOfWeek, s.hour, tz);
    var d := if l.dayOfWeek == 0 then 6 else l.dayOfWeek - 1;
    assert DAYS[d] == l.dayOfWeek;
    assert grid[d].hours[l.hour] == Cell(DAYS[d], l.hour, tz, slots);
    forall d1, h1, d2, h2 | 0 <= d1 < 7 && 0 <= h1 < 24 && 0 <= d2 < 7 && 0 <= h2 < 24
      && grid[d1].hours[h1].utc == Some(s) && grid[d2].hours[h2].utc == Some(s)
      ensures d1 == d2 && h1 == h2
    {
      assert grid[d1].hours[h1] == Cell(DAYS[d1], h1, tz, slots);
      assert grid[d2].hours[h2] == Cell(DAYS[d2], h2, tz, slots);
      UtcSlotUnique(tz, s, d1, h1, d2, h2);
    }
  }

  // ------------------------------------------------------------------ update

  /** The `isAvailable` input read by `update`: only the string "true" or the boolean true. */
  predicate IsTrueFlag(v: FormValue) {
    v == FStr("true") || v == FBool(true)
  }

  function BoolText(b: bool): string {
    if b then "true" else "false"
  }

  /** The returned toggle button: its slot, its state, the value it submits
      next, and the local day/hour its title shows. */
  datatype SlotButton = SlotButton(utcDayOfWeek: int, utcHour: int, available: bool, nextValue: FormValue,
                                   local: Option<DayHour>)

  /** `update`: upsert the (user, UTC day, UTC hour) slot and return its button. */
  method Update(table: KeyedTable<SlotKey, bool>, user: UserModel.User, utcDayOfWeek: int, utcHour: int,
                isAvailable: FormValue)
    returns (button: SlotButton)
    requires table.Valid()
    modifies table
    ensures table.Valid()
    ensures table.rows == Upsert(old(table.rows), SlotKey(user.id, utcDayOfWeek, utcHour), IsTrueFlag(isAvailable))
    ensures table.Get(SlotKey(user.id, utcDayOfWeek, utcHour)) == Some(IsTrueFlag(isAvailable))
    ensures forall k :: k != SlotKey(user.id, utcDayOfWeek, utcHour) ==> table.Get(k) == Lookup(old(table.rows), k)
    ensures button.available == IsTrueFlag(isAvailable) && IsTrueFlag(button.nextValue) == !button.available
    ensures button.local == ToLocal(utcDayOfWeek, utcHour, user.timezone)
  {
    var available := IsTrueFlag(isAvailable);
    table.UpdateOrCreate(SlotKey(user.id, utcDayOfWeek, utcHour), available);
    button := SlotButton(utcDayOfWeek, utcHour, available, FStr(BoolText(!available)),
                         ToLocal(utcDayOfWeek, utcHour, user.timezone));
  }

  /** Submitting the button's value flips the slot, and submitting the next
      button's value flips it back. */
  lemma ToggleTwice(rows: seq<(SlotKey, bool)>, k: SlotKey, v: bool)
    ensures var once := Upsert(rows, k, !v);
      Lookup(once, k) == Some(!v) && Lookup(Upsert(once, k, !IsTrueFlag(FStr(BoolText(!v)))), k) == Some(v)
  {
    UpsertLookup(rows, k, !v, k);
    UpsertLookup(Upsert(rows, k, !v), k, v, k);
  }
}

/** Weekly slot arithmetic of the timezone service. A weekly availability
    slot is a (dayOfWeek, hour) pair with 0 = Sunday .. 6 = Saturday; the
    date library numbers weekdays the ISO way, 1 = Monday .. 7 = Sunday.
    A timezone is a fixed whole-hour offset from UTC (local = UTC + offset),
    so every instant of the week is one of 168 hour slots and converting
    between zones is addition modulo 168. */
module Timezone {
  import opened Wrappers
  import Text

  const HOURS_PER_WEEK: int := 168

  datatype DayHour = DayHour(dayOfWeek: int, hour: int)

  /** A timezone name, reduced to its offset from UTC in whole hours; `Unknown`
      is a name the date library does not recognise (its dates are invalid). */
  datatype Zone = Fixed(offset: int) | Unknown

  /** One entry of the per-day mapping: a local hour and its UTC slot.
      `utc` is None where the date library yields an invalid date (NaN fields). */
  datatype HourMapping = HourMapping(localHour: int, utc: Option<DayHour>)

  predicate InWeek(d: DayHour) {
    0 <= d.dayOfWeek <= 6 && 0 <= d.hour <= 23
  }

  /** The 0 = Sunday numbering mapped to ISO weekdays: 0 becomes 7, the rest pass. */
  function IsoWeekday(dayOfWeek: int): int {
    if dayOfWeek == 0 then 7 else dayOfWeek
  }

  /** The position of an ISO weekday and hour within the ISO week (Monday 00:00 is 0). */
  function WeekSlot(isoWeekday: int, hour: int): (s: int)
    requires 1 <= isoWeekday <= 7 && 0 <= hour <= 23
    ensures 0 <= s < HOURS_PER_WEEK
  {
    (isoWeekday - 1) * 24 + hour
  }

  /** The day and hour of a week slot, with ISO weekday 7 reported as 0. */
  function FromSlot(s: int): (r: DayHour)
    requires 0 <= s < HOURS_PER_WEEK
    ensures InWeek(r)
  {
    var w := s / 24 + 1;
    DayHour(if w == 7 then 0 else w, s % 24)
  }

  /** Builds a date from weekday and hour in one zone, reads it in a zone `shift`
      hours ahead; None when the weekday or hour is outside what the library accepts. */
  function Convert(dayOfWeek: int, hour: int, shift: int): Option<DayHour> {
    var w := IsoWeekday(dayOfWeek);
    if 1 <= w <= 7 && 0 <= hour <= 23 then Some(FromSlot((WeekSlot(w, hour) + shift) % HOURS_PER_WEEK))
    else None
  }

  /** `toUtc`: a local day/hour in zone `tz` as a UTC day/hour. */
  function ToUtc(dayOfWeek: int, hour: int, tz: Zone): (r: Option<DayHour>)
    ensures r.Some? <==> tz.Fixed? && 0 <= dayOfWeek <= 7 && 0 <= hour <= 23
    ensures r.Some? ==> InWeek(r.value)
  {
    if tz.Unknown? then None else Convert(dayOfWeek, hour, -tz.offset)
  }

  /** `toLocal`: a UTC day/hour as a day/hour in zone `tz`. */
  function ToLocal(dayOfWeek: int, hour: int, tz: Zone): (r: Option<DayHour>)
    ensures r.Some? <==> tz.Fixed? && 0 <= dayOfWeek <= 7 && 0 <= hour <= 23
    ensures r.Some? ==> InWeek(r.value)
  {
    if tz.Unknown? then None else Convert(dayOfWeek, hour, tz.offset)
  }

  /** Day 7 is accepted and means Sunday, the same as day 0. */
  function Normalize(dayOfWeek: int): int {
    if dayOfWeek == 7 then 0 else dayOfWeek
  }

  lemma SlotOfFromSlot(s: int)
    requires 0 <= s < HOURS_PER_WEEK
    ensures WeekSlot(IsoWeekday(FromSlot(s).dayOfWeek), FromSlot(s).hour) == s
  {
  }

  lemma FromSlotOfSlot(dayOfWeek: int, hour: int)
    requires 0 <= dayOfWeek <= 7 && 0 <= hour <= 23
    ensures FromSlot(WeekSlot(IsoWeekday(dayOfWeek), hour)) == DayHour(Normalize(dayOfWeek), hour)
  {
  }

  lemma ModShiftBack(x: int, shift: int)
    requires 0 <= x < HOURS_PER_WEEK
    ensures ((x + shift) % HOURS_PER_WEEK - shift) % HOURS_PER_WEEK == x
  {
    var q := (x + shift) / HOURS_PER_WEEK;
    assert (x + shift) % HOURS_PER_WEEK - shift == x - q * HOURS_PER_WEEK;
  }

  lemma ConvertValid(dayOfWeek: int, hour: int, shift: int)
    requires 0 <= dayOfWeek <= 7 && 0 <= hour <= 23
    ensures Convert(dayOfWeek, hour, shift)
      == Some(FromSlot((WeekSlot(IsoWeekday(dayOfWeek), hour) + shift) % HOURS_PER_WEEK))
  {
  }

  /** Converting forward by `shift` and then back recovers the day (normalized) and hour. */
  lemma {:induction false} ConvertRoundTrip(dayOfWeek: int, hour: int, shift: int)
    requires 0 <= dayOfWeek <= 7 && 0 <= hour <= 23
    ensures Convert(dayOfWeek, hour, shift).Some?
    ensures var m := Convert(dayOfWeek, hour, shift).value;
      Convert(m.dayOfWeek, m.hour, -shift) == Some(DayHour(Normalize(dayOfWeek), hour))
  {
    var s := WeekSlot(IsoWeekday(dayOfWeek), hour);
    var m := FromSlot((s + shift) % HOURS_PER_WEEK);
    ConvertValid(dayOfWeek, hour, shift);
    ConvertValid(m.dayOfWeek, m.hour, -shift);
    SlotRoundTrip(s, shift);
    FromSlotOfSlot(dayOfWeek, hour);
  }

  /** A slot moved forward by `shift`, read as a day and hour, and moved back is the same slot. */
  lemma SlotRoundTrip(s: int, shift: int)
    requires 0 <= s < HOURS_PER_WEEK
    ensures var m := FromSlot((s + shift) % HOURS_PER_WEEK);
      FromSlot((WeekSlot(IsoWeekday(m.dayOfWeek), m.hour) + -shift) % HOURS_PER_WEEK) == FromSlot(s)
  {
    var u := (s + shift) % HOURS_PER_WEEK;
    SlotOfFromSlot(u);
    ModShiftBack(s, shift);
  }

  /** toLocal undoes toUtc for every valid local day/hour (day 7 comes back as 0). */
  lemma LocalOfUtc(dayOfWeek: int, hour: int, tz: Zone)
    requires tz.Fixed? && 0 <= dayOfWeek <= 7 && 0 <= hour <= 23
    ensures var u := ToUtc(dayOfWeek, hour, tz).value;
      ToLocal(u.dayOfWeek, u.hour, tz) == Some(DayHour(Normalize(dayOfWeek), hour))
  {
    ConvertRoundTrip(dayOfWeek, hour, -tz.offset);
  }

  /** toUtc undoes toLocal for every valid UTC day/hour (day 7 comes back as 0). */
  lemma UtcOfLocal(dayOfWeek: int, hour: int, tz: Zone)
    requires tz.Fixed? && 0 <= dayOfWeek <= 7 && 0 <= hour <= 23
    ensures var l := ToLocal(dayOfWeek, hour, tz).value;
      ToUtc(l.dayOfWeek, l.hour, tz) == Some(DayHour(Normalize(dayOfWeek), hour))
  {
    ConvertRoundTrip(dayOfWeek, hour, tz.offset);
  }

  /** Within one local day, distinct local hours have distinct UTC slots. */
  lemma ToUtcInjective(dayOfWeek: int, h1: int, h2: int, tz: Zone)
    requires tz.Fixed? && 0 <= dayOfWeek <= 7 && 0 <= h1 <= 23 && 0 <= h2 <= 23
    requires ToUtc(dayOfWeek, h1, tz) == ToUtc(dayOfWeek, h2, tz)
    ensures h1 == h2
  {
    LocalOfUtc(dayOfWeek, h1, tz);
    LocalOfUtc(dayOfWeek, h2, tz);
  }

  /** `getLocalHoursMapping`: the UTC slot of each of the 24 local hours of a day. */
  method GetLocalHoursMapping(localDayOfWeek: int, tz: Zone) returns (mapping: seq<HourMapping>)
    ensures |mapping| == 24
    ensures forall h :: 0 <= h < 24 ==>
      mapping[h] == HourMapping(h, ToUtc(localDayOfWeek, h, tz))
  {
    mapping := [];
    var localHour := 0;
    while localHour < 24
      invariant 0 <= localHour <= 24 && |mapping| == localHour
      invariant forall h :: 0 <= h < localHour ==>
        mapping[h] == HourMapping(h, ToUtc(localDayOfWeek, h, tz))
    {
      var utc := ToUtc(localDayOfWeek, localHour, tz);
      mapping := mapping + [HourMapping(localHour, utc)];
      localHour := localHour + 1;
    }
  }

  /** The 24 UTC slots produced for one valid local day are pairwise distinct. */
  lemma MappingDistinct(mapping: seq<HourMapping>, localDayOfWeek: int, tz: Zone)
    requires tz.Fixed? && 0 <= localDayOfWeek <= 7
    requires |mapping| == 24
    requires forall h :: 0 <= h < 24 ==> mapping[h] == HourMapping(h, ToUtc(localDayOfWeek, h, tz))
    ensures forall i, j :: 0 <= i < j < 24 ==> mapping[i].utc != mapping[j].utc
  {
    forall i, j | 0 <= i < j < 24 ensures mapping[i].utc != mapping[j].utc {
      if mapping[i].utc == mapping[j].utc {
        ToUtcInjective(localDayOfWeek, i, j, tz);
      }
    }
  }

  const DAY_NAMES: seq<string> := ["Sunday", "Monday", "Tuesday", "Wednesday", "Thursday", "Friday", "Saturday"]

  /** `getDayName`: the name of a day 0..6; an index outside the list gives `undefined`. */
  function DayName(dayOfWeek: int): (r: Option<string>)
    ensures r.Some? <==> 0 <= dayOfWeek <= 6
    ensures dayOfWeek == 0 ==> r == Some("Sunday")
    ensures dayOfWeek == 6 ==> r == Some("Saturday")
  {
    if 0 <= dayOfWeek < |DAY_NAMES| then Some(DAY_NAMES[dayOfWeek]) else None
  }

  /** The seven days have seven different names. */
  lemma DayNameInjective(d1: int, d2: int)
    requires 0 <= d1 <= 6 && 0 <= d2 <= 6 && DayName(d1) == DayName(d2)
    ensures d1 == d2
  {
  }

  /** The number a 12-hour clock shows for hour 0..23. */
  function ClockNumber(hour: int): (n: nat)
    requires 0 <= hour <= 23
    ensures 1 <= n <= 12
  {
    if hour % 12 == 0 then 12 else hour % 12
  }

  /** `formatHour`: a 12-hour label. Hours outside 0..23 are rendered as the code does. */
  function FormatHour(hour: int): (r: string)
    ensures 0 <= hour <= 23 ==>
      r == Text.NatToString(ClockNumber(hour)) + Meridiem(hour)
  {
    if hour == 0 then "12 AM"
    else if hour < 12 then Text.IntToString(hour) + " AM"
    else if hour == 12 then "12 PM"
    else Text.IntToString(hour - 12) + " PM"
  }

  /** Distinct hours of the day get distinct labels. */
  lemma FormatHourInjective(h1: int, h2: int)
    requires 0 <= h1 <= 23 && 0 <= h2 <= 23 && FormatHour(h1) == FormatHour(h2)
    ensures h1 == h2
  {
    ClockLabelInjective(h1, h2);
  }

  /** The meridiem of an hour of the day. */
  function Meridiem(hour: int): string {
    if hour < 12 then " AM" else " PM"
  }

  /** An hour of the day is fixed by its clock number and its meridiem. */
  lemma ClockLabelInjective(h1: int, h2: int)
    requires 0 <= h1 <= 23 && 0 <= h2 <= 23
    requires Text.NatToString(ClockNumber(h1)) + Meridiem(h1) == Text.NatToString(ClockNumber(h2)) + Meridiem(h2)
    ensures h1 == h2
  {
    SameSuffixLength(Text.NatToString(ClockNumber(h1)), Text.NatToString(ClockNumber(h2)), Meridiem(h1), Meridiem(h2));
    Text.NatToStringInjective(ClockNumber(h1), ClockNumber(h2));
    assert (h1 < 12) == (h2 < 12) by {
      assert Meridiem(h1)[1] == (if h1 < 12 then 'A' else 'P') && Meridiem(h2)[1] == (if h2 < 12 then 'A' else 'P');
    }
  }

  /** Two strings that end in suffixes of the same length split the same way. */
  lemma SameSuffixLength(a: string, b: string, x: string, y: string)
    requires |x| == |y| && a + x == b + y
    ensures a == b && x == y
  {
    assert a == (a + x)[..|a|] == (b + y)[..|b|] == b;
    assert x == (a + x)[|a|..] == (b + y)[|b|..] == y;
  }
}

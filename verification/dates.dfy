/** The part of .NET's `DateTime` the core relies on: a day number, a
    time of day in 100-nanosecond ticks, and a `Kind` label. Comparisons
    and differences look at ticks only, as `DateTime`'s operators do. */
module Dates {

  /** 100-nanosecond ticks in one day. */
  const TicksPerDay: int := 864_000_000_000

  type TimeOfDay = t: int | 0 <= t < TicksPerDay

  datatype DateKind = Unspecified | Utc | Local

  /** `day` counts days from 0001-01-01 (day 0); `time` is the ticks elapsed
      since that day's midnight. */
  datatype DateTime = DateTime(day: int, time: TimeOfDay, kind: DateKind)

  /** `DateTime.Ticks`. */
  function Ticks(d: DateTime): int {
    d.day * TicksPerDay + d.time
  }

  /** `a < b` on `DateTime`: ticks only, the Kind is ignored. */
  predicate Before(a: DateTime, b: DateTime) {
    Ticks(a) < Ticks(b)
  }

  /** `DateTime.Date`: the midnight that starts `d`'s day, with `d`'s Kind. */
  function DateOf(d: DateTime): (r: DateTime)
    ensures Ticks(r) <= Ticks(d) < Ticks(r) + TicksPerDay
    ensures Ticks(r) % TicksPerDay == 0
    ensures r.kind == d.kind
  {
    DateTime(d.day, 0, d.kind)
  }

  /** `d.AddDays(n)` for a whole number of days. */
  function AddDays(d: DateTime, n: int): (r: DateTime)
    ensures Ticks(r) == Ticks(d) + n * TicksPerDay
    ensures r.time == d.time && r.kind == d.kind
  {
    DateTime(d.day + n, d.time, d.kind)
  }

  /** `DateTime.SpecifyKind`: same wall-clock value, new label. */
  function SpecifyKind(d: DateTime, k: DateKind): (r: DateTime)
    ensures Ticks(r) == Ticks(d) && r.kind == k
  {
    DateTime(d.day, d.time, k)
  }

  /** `TimeSpan.Days` of a tick count: whole days, truncated toward zero. */
  function WholeDays(ticks: int): int {
    if ticks >= 0 then ticks / TicksPerDay else -((-ticks) / TicksPerDay)
  }

  /** `(a.Date - b.Date).Days` */
  function DaysBetween(a: DateTime, b: DateTime): int {
    WholeDays(Ticks(DateOf(a)) - Ticks(DateOf(b)))
  }

  lemma {:induction false} WholeDaysOfMultiple(k: int)
    ensures WholeDays(k * TicksPerDay) == k
  {
    if k >= 0 {
      assert (k * TicksPerDay) / TicksPerDay == k;
    } else {
      assert -(k * TicksPerDay) == (-k) * TicksPerDay;
      assert ((-k) * TicksPerDay) / TicksPerDay == -k;
    }
  }

  /** The whole-day difference of two dates is the difference of their day
      numbers, whatever their times of day. */
  lemma DaysBetweenIsDayDifference(a: DateTime, b: DateTime)
    ensures DaysBetween(a, b) == a.day - b.day
  {
    assert Ticks(DateOf(a)) - Ticks(DateOf(b)) == (a.day - b.day) * TicksPerDay;
    WholeDaysOfMultiple(a.day - b.day);
  }

  /** Comparing the `.Date` parts of two instants compares their day numbers. */
  lemma DateOrder(a: DateTime, b: DateTime)
    ensures Before(DateOf(a), DateOf(b)) <==> a.day < b.day
    ensures Ticks(DateOf(a)) == Ticks(DateOf(b)) <==> a.day == b.day
  {
  }

  /** The UTC normalisation the services apply to incoming dates: a UTC date
      is kept, an Unspecified one is relabelled UTC with the same wall-clock
      value, and any other is converted with `toUniversal`, the host's
      `ToUniversalTime` (time-zone data the model does not see). */
  function NormalizeToUtc(d: DateTime, toUniversal: DateTime -> DateTime): (r: DateTime)
    ensures r.kind == Utc
    ensures d.kind == Utc ==> r == d
    ensures d.kind == Unspecified ==> r.day == d.day && r.time == d.time
    ensures d.kind == Local ==> r.day == toUniversal(d).day && r.time == toUniversal(d).time
  {
    if d.kind != Utc then
      (if d.kind == Unspecified then SpecifyKind(d, Utc)
       else SpecifyKind(toUniversal(d), Utc))
    else d
  }

  /** Normalising an already normalised date changes nothing, whatever
      conversion either call is given. */
  lemma NormalizeIdempotent(d: DateTime, f: DateTime -> DateTime, g: DateTime -> DateTime)
    ensures NormalizeToUtc(NormalizeToUtc(d, f), g) == NormalizeToUtc(d, f)
  {
  }
  /** Days in a 400-, 100-, 4- and 1-year stretch of the Gregorian calendar. */
  const DaysPer400Years: int := 146_097
  const DaysPer100Years: int := 36_524
  const DaysPer4Years: int := 1_461
  const DaysPerYear: int := 365

  /** `DateTime.Year`: the Gregorian year of `d`'s day, found as .NET finds
      it, by peeling off whole 400-, 100-, 4- and 1-year stretches. */
  function YearOf(d: DateTime): (y: int)
    ensures 0 <= d.day ==> 1 <= y
  {
    var n400 := d.day / DaysPer400Years;
    var r400 := d.day % DaysPer400Years;
    var n100 := if r400 / DaysPer100Years == 4 then 3 else r400 / DaysPer100Years;
    var r100 := r400 - n100 * DaysPer100Years;
    var n4 := r100 / DaysPer4Years;
    var r4 := r100 % DaysPer4Years;
    var n1 := if r4 / DaysPerYear == 4 then 3 else r4 / DaysPerYear;
    n400 * 400 + n100 * 100 + n4 * 4 + n1 + 1
  }

  /** Year boundaries around the dates the rental examples use: 2024-01-01
      is day 738885, the last day of 2024 is day 739250, and 2000 is a leap
      year whose last day is day 730484. */
  lemma YearBoundaries()
    ensures YearOf(DateTime(738_884, 0, Utc)) == 2023
    ensures YearOf(DateTime(738_885, 0, Utc)) == 2024
    ensures YearOf(DateTime(739_250, 0, Utc)) == 2024
    ensures YearOf(DateTime(739_251, 0, Utc)) == 2025
    ensures YearOf(DateTime(730_484, 0, Utc)) == 2000
    ensures YearOf(DateTime(0, 0, Utc)) == 1
  {
  }
}

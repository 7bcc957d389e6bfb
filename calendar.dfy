/**
 * Python `datetime` values as the feed extractor uses them: a proleptic
 * Gregorian civil date-time with whole seconds and an optional fixed UTC
 * offset (`tzinfo`), compared by the instant they denote.
 */
module Calendar {
  import opened Wrappers

  /** A civil date-time; `offset` is minutes east of UTC, `None` for a naive value. */
  datatype DateTime = DateTime(
    year: int, month: int, day: int,
    hour: int, minute: int, second: int,
    offset: Option<int>)

  predicate IsLeap(y: int)
  {
    y % 4 == 0 && (y % 100 != 0 || y % 400 == 0)
  }

  function DaysInYear(y: int): int
  {
    if IsLeap(y) then 366 else 365
  }

  function DaysInMonth(y: int, m: int): int
    requires 1 <= m <= 12
  {
    if m == 2 then (if IsLeap(y) then 29 else 28)
    else if m == 4 || m == 6 || m == 9 || m == 11 then 30
    else 31
  }

  /** A `timezone(timedelta(minutes = o))` exists only strictly inside one day. */
  predicate ValidOffset(o: int)
  {
    -1440 < o < 1440
  }

  /** The ranges `datetime(...)` accepts (MINYEAR 1 to MAXYEAR 9999). */
  predicate Valid(t: DateTime)
  {
    1 <= t.year <= 9999 && 1 <= t.month <= 12 && 1 <= t.day <= DaysInMonth(t.year, t.month) &&
    0 <= t.hour < 24 && 0 <= t.minute < 60 && 0 <= t.second < 60 &&
    (t.offset.Some? ==> ValidOffset(t.offset.value))
  }

  predicate Aware(t: DateTime)
  {
    t.offset.Some?
  }

  /** Days in the years before `y` (Python's `_days_before_year`). */
  function DaysBeforeYear(y: int): int
    requires y >= 1
  {
    var n := y - 1;
    365 * n + n / 4 - n / 100 + n / 400
  }

  /** Days in the months of year `y` before month `m` (Python's `_days_before_month`). */
  function DaysBeforeMonth(y: int, m: int): int
    requires 1 <= m <= 12
  {
    var table := [0, 31, 59, 90, 120, 151, 181, 212, 243, 273, 304, 334];
    table[m - 1] + (if m > 2 && IsLeap(y) then 1 else 0)
  }

  /** Day number with 0001-01-01 as day 1 (Python's `toordinal`). */
  function Ordinal(t: DateTime): int
    requires Valid(t)
  {
    DaysBeforeYear(t.year) + DaysBeforeMonth(t.year, t.month) + t.day
  }

  /** Day of the week, Monday being 0 (Python's `weekday`). */
  function Weekday(t: DateTime): (w: int)
    requires Valid(t)
    ensures 0 <= w < 7
  {
    (Ordinal(t) + 6) % 7
  }

  /** Seconds since the start of day 0 on the wall clock, ignoring the offset. */
  function WallSeconds(t: DateTime): int
    requires Valid(t)
  {
    Ordinal(t) * 86400 + (t.hour * 3600 + t.minute * 60 + t.second)
  }

  /** The instant an aware value denotes: its wall clock moved back by its offset. */
  function Instant(t: DateTime): int
    requires Valid(t) && Aware(t)
  {
    WallSeconds(t) - 60 * t.offset.value
  }

  /**
   * `dt.replace(tzinfo=timezone.utc)` when `dt` is naive, `dt` otherwise:
   * the wall clock is kept as it is and read as UTC, with no shift.
   */
  function AsUtc(t: DateTime): (r: DateTime)
    ensures Aware(r)
    ensures Aware(t) ==> r == t
    ensures !Aware(t) ==> r.offset == Some(0)
    ensures (r.year, r.month, r.day, r.hour, r.minute, r.second) == (t.year, t.month, t.day, t.hour, t.minute, t.second)
    ensures Valid(t) ==> Valid(r) && WallSeconds(r) == WallSeconds(t)
  {
    if t.offset.None? then t.(offset := Some(0)) else t
  }

  /** A naive bound denotes the instant its wall clock shows in UTC. */
  lemma NaiveBoundIsUtcWallClock(t: DateTime)
    requires Valid(t) && !Aware(t)
    ensures Instant(AsUtc(t)) == WallSeconds(t)
  {
  }

  /** Python's chained `start <= pub <= end` on aware values: the comparison is by instant. */
  predicate InWindow(pub: DateTime, start: DateTime, end: DateTime)
    requires Valid(pub) && Aware(pub) && Valid(start) && Aware(start) && Valid(end) && Aware(end)
  {
    Instant(start) <= Instant(pub) <= Instant(end)
  }

  /** Lexicographic order of the civil fields. */
  predicate FieldsNotAfter(a: DateTime, b: DateTime)
  {
    a.year < b.year || (a.year == b.year && (a.month < b.month || (a.month == b.month &&
    (a.day < b.day || (a.day == b.day && (a.hour < b.hour || (a.hour == b.hour &&
    (a.minute < b.minute || (a.minute == b.minute && a.second <= b.second)))))))))
  }

  lemma DaysBeforeYearStep(y: int)
    requires y >= 1
    ensures DaysBeforeYear(y + 1) == DaysBeforeYear(y) + DaysInYear(y)
  {
    var n := y - 1;
    assert (n + 1) / 4 == n / 4 + (if y % 4 == 0 then 1 else 0);
    assert (n + 1) / 100 == n / 100 + (if y % 100 == 0 then 1 else 0);
    assert (n + 1) / 400 == n / 400 + (if y % 400 == 0 then 1 else 0);
  }

  /** A whole year `y1` fits before the start of any later year. */
  lemma {:induction false} DaysBeforeYearGrows(y1: int, y2: int)
    requires 1 <= y1 < y2
    ensures DaysBeforeYear(y1) + DaysInYear(y1) <= DaysBeforeYear(y2)
    decreases y2 - y1
  {
    DaysBeforeYearStep(y1);
    if y1 + 1 < y2 {
      DaysBeforeYearGrows(y1 + 1, y2);
    }
  }

  /** A valid date comes strictly before every lexicographically later valid date. */
  lemma OrdinalIncreasing(a: DateTime, b: DateTime)
    requires Valid(a) && Valid(b)
    requires a.year < b.year || (a.year == b.year && (a.month < b.month || (a.month == b.month && a.day < b.day)))
    ensures Ordinal(a) < Ordinal(b)
  {
    if a.year < b.year {
      DaysBeforeYearGrows(a.year, b.year);
      assert DaysBeforeMonth(a.year, a.month) + DaysInMonth(a.year, a.month) <= DaysInYear(a.year);
    } else if a.month < b.month {
      assert DaysBeforeMonth(a.year, a.month) + DaysInMonth(a.year, a.month) <= DaysBeforeMonth(a.year, b.month);
    }
  }

  /**
   * For two values with the same offset (the case Python compares field by
   * field) the comparison by instant is exactly calendar order.
   */
  lemma SameOffsetOrder(a: DateTime, b: DateTime)
    requires Valid(a) && Valid(b) && Aware(a) && a.offset == b.offset
    ensures Instant(a) <= Instant(b) <==> FieldsNotAfter(a, b)
  {
    var sameDate := a.year == b.year && a.month == b.month && a.day == b.day;
    if !sameDate {
      var earlier := a.year < b.year || (a.year == b.year && (a.month < b.month || (a.month == b.month && a.day < b.day)));
      if earlier {
        OrdinalIncreasing(a, b);
      } else {
        OrdinalIncreasing(b, a);
      }
    }
  }
}

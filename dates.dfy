/** Calendar-day utilities of the habit tracker (src/utils/date.ts).

    An instant is a number of milliseconds since the epoch, read in local time:
    the time-zone offset is taken as already applied, so the calendar day of an
    instant is its day number `t / MsPerDay` (floor division, as JavaScript's
    `Date` does for instants before the epoch too) turned into a proleptic
    Gregorian (year, month, day-of-month) triple. */
module Dates {

  type Instant = int

  const MsPerSecond: int := 1000
  const MsPerMinute: int := 60000
  const MsPerHour: int := 3600000
  const MsPerDay: int := 86400000

  /** A civil date: `month` is 1..12 (JavaScript's `getMonth()` is this minus one,
      which does not affect comparisons) and `day` is the day of the month. */
  datatype CivilDate = CivilDate(year: int, month: int, day: int)

  /** Days since 1970-01-01 of the local calendar day holding `t`. */
  function DayNumber(t: Instant): int {
    t / MsPerDay
  }

  /** Milliseconds elapsed since local midnight. */
  function TimeInDay(t: Instant): (r: int)
    ensures 0 <= r < MsPerDay
  {
    t % MsPerDay
  }

  function Hours(t: Instant): int { TimeInDay(t) / MsPerHour }
  function Minutes(t: Instant): int { TimeInDay(t) / MsPerMinute % 60 }
  function Seconds(t: Instant): int { TimeInDay(t) / MsPerSecond % 60 }
  function Milliseconds(t: Instant): int { TimeInDay(t) % MsPerSecond }

  // ---------------------------------------------------------------------------
  // Day numbers and civil dates (H. Hinnant's algorithms, shifted so that the
  // computational year starts on March 1st).

  /** Position of a day within its 400-year era: (year of era, day of year). */
  function YearOfEra(doe: int): int {
    (doe - doe / 1460 + doe / 36524 - doe / 146096) / 365
  }

  function StartOfYearOfEra(yoe: int): int {
    365 * yoe + yoe / 4 - yoe / 100
  }

  /** The year of the era, read off a day of the era written as whole
      centuries, whole four-year cycles and a remainder; the year inside the
      four-year cycle is capped at 3 (the leap day closes the cycle). */
  lemma YearOfEraSplit(century: int, quad: int, rest: int)
    requires 0 <= century <= 3 && 0 <= quad <= 24 && 0 <= rest <= 1460
    requires 1461 * quad + rest < 36524 && 36524 * century + 1461 * quad + rest < 146096
    ensures YearOfEra(36524 * century + 1461 * quad + rest)
      == 100 * century + 4 * quad + (if rest / 365 < 4 then rest / 365 else 3)
  {
    var doe := 36524 * century + 1461 * quad + rest;
    var y4 := if rest / 365 < 4 then rest / 365 else 3;
    var e := (24 * century + quad + rest) / 1460;
    assert doe / 1460 == 25 * century + quad + e;
    assert e == 0 || e == 1;
    assert doe / 36524 == century;
    assert doe / 146096 == 0;
    assert (36500 * century + 1460 * quad + rest - e) / 365 == 100 * century + 4 * quad + y4;
  }

  lemma StartOfYearOfEraSplit(century: int, quad: int, y4: int)
    requires 0 <= century <= 3 && 0 <= quad <= 24 && 0 <= y4 <= 3
    ensures StartOfYearOfEra(100 * century + 4 * quad + y4) == 36524 * century + 1461 * quad + 365 * y4
  {
    var yoe := 100 * century + 4 * quad + y4;
    assert yoe / 4 == 25 * century + quad;
    assert yoe / 100 == century;
  }

  /** The day-of-era split into a year of the era and a day of that
      (March-based) year stays within range. */
  lemma EraSplitBounds(doe: int)
    requires 0 <= doe < 146097
    ensures 0 <= YearOfEra(doe) < 400
    ensures 0 <= doe - StartOfYearOfEra(YearOfEra(doe)) <= 365
  {
    if doe == 146096 {
      assert YearOfEra(doe) == 399;
    } else {
      var century := doe / 36524;
      var quad := doe % 36524 / 1461;
      var rest := doe % 36524 % 1461;
      assert doe == 36524 * century + 1461 * quad + rest;
      assert 0 <= century <= 3 && 0 <= quad <= 24 && 0 <= rest <= 1460;
      var y4 := if rest / 365 < 4 then rest / 365 else 3;
      YearOfEraSplit(century, quad, rest);
      StartOfYearOfEraSplit(century, quad, y4);
    }
  }

  /** The civil date of day `doy` (0 = March 1st) of the March-based year `y`. */
  function CivilFromMarchYear(y: int, doy: int): (c: CivilDate)
    requires 0 <= doy <= 365
    ensures 1 <= c.month <= 12 && 1 <= c.day <= 31
  {
    var mp := (5 * doy + 2) / 153;
    var d := doy - (153 * mp + 2) / 5 + 1;
    var m := if mp < 10 then mp + 3 else mp - 9;
    CivilDate(y + (if m <= 2 then 1 else 0), m, d)
  }

  function CivilFromDays(z: int): (c: CivilDate)
    ensures 1 <= c.month <= 12 && 1 <= c.day <= 31
  {
    var era := (z + 719468) / 146097;
    var doe := (z + 719468) % 146097;
    EraSplitBounds(doe);
    var yoe := YearOfEra(doe);
    CivilFromMarchYear(yoe + era * 400, doe - StartOfYearOfEra(yoe))
  }

  function DaysFromCivil(c: CivilDate): int {
    var y := c.year - (if c.month <= 2 then 1 else 0);
    var era := y / 400;
    var yoe := y - era * 400;
    var doy := (153 * (if c.month > 2 then c.month - 3 else c.month + 9) + 2) / 5 + c.day - 1;
    var doe := StartOfYearOfEra(yoe) + doy;
    era * 146097 + doe - 719468
  }

  lemma {:induction false} DaysFromCivilInverse(z: int)
    ensures DaysFromCivil(CivilFromDays(z)) == z
  {
    var era := (z + 719468) / 146097;
    var doe := (z + 719468) % 146097;
    EraSplitBounds(doe);
    var yoe := YearOfEra(doe);
    var doy := doe - StartOfYearOfEra(yoe);
    var mp := (5 * doy + 2) / 153;
    assert 0 <= mp <= 11;
    var c := CivilFromDays(z);
    assert c == CivilFromMarchYear(yoe + era * 400, doy);
    assert c.day == doy - (153 * mp + 2) / 5 + 1;
    assert (if c.month > 2 then c.month - 3 else c.month + 9) == mp;
    var y := c.year - (if c.month <= 2 then 1 else 0);
    assert y == yoe + era * 400;
    assert y / 400 == era;
    assert y - y / 400 * 400 == yoe;
  }

  // ---------------------------------------------------------------------------
  // The calendar fields the source reads from a `Date`.

  function CivilOf(t: Instant): CivilDate {
    CivilFromDays(DayNumber(t))
  }

  /** `getFullYear()`, `getMonth()` (1-based here) and `getDate()`. */
  function FullYear(t: Instant): int { CivilOf(t).year }
  function Month(t: Instant): int { CivilOf(t).month }
  function DayOfMonth(t: Instant): int { CivilOf(t).day }

  /** isSameDay: year, month and day of the month all agree. */
  predicate IsSameDay(a: Instant, b: Instant) {
    && FullYear(a) == FullYear(b)
    && Month(a) == Month(b)
    && DayOfMonth(a) == DayOfMonth(b)
  }

  /** Comparing the three calendar fields is the same as comparing day
      numbers: no two different days share a (year, month, day) triple, so the
      comparison never confuses days across a month or year boundary. */
  lemma SameDayIffSameDayNumber(a: Instant, b: Instant)
    ensures IsSameDay(a, b) <==> DayNumber(a) == DayNumber(b)
  {
    if IsSameDay(a, b) {
      assert CivilOf(a) == CivilOf(b);
      DaysFromCivilInverse(DayNumber(a));
      DaysFromCivilInverse(DayNumber(b));
    }
  }

  /** isSameDay is an equivalence relation on instants. */
  lemma IsSameDayIsEquivalence()
    ensures forall a: Instant :: IsSameDay(a, a)
    ensures forall a: Instant, b: Instant :: IsSameDay(a, b) ==> IsSameDay(b, a)
    ensures forall a: Instant, b: Instant, c: Instant ::
      IsSameDay(a, b) && IsSameDay(b, c) ==> IsSameDay(a, c)
  {
  }

  /** Midnight (local) of the given day number. */
  function MidnightOf(day: int): Instant {
    day * MsPerDay
  }

  /** Midnight of a day number lies on that day, at time zero. */
  lemma MidnightOfDay(day: int)
    ensures DayNumber(MidnightOf(day)) == day
    ensures TimeInDay(MidnightOf(day)) == 0
    ensures Hours(MidnightOf(day)) == 0 && Minutes(MidnightOf(day)) == 0
    ensures Seconds(MidnightOf(day)) == 0 && Milliseconds(MidnightOf(day)) == 0
  {
    assert TimeInDay(MidnightOf(day)) == 0;
  }

  /** Every instant lies within the day that starts at its day's midnight. */
  lemma MidnightBounds(t: Instant)
    ensures MidnightOf(DayNumber(t)) <= t < MidnightOf(DayNumber(t)) + MsPerDay
  {
    assert t == DayNumber(t) * MsPerDay + TimeInDay(t);
  }

  /** Days 19722..19754 fall in March-based year 2023 of the era starting on
      2000-03-01 (era 5); that year starts on day 8400 of the era. */
  lemma CivilInYear2023(z: int)
    requires 19722 <= z <= 19754
    ensures CivilFromDays(z) == CivilFromMarchYear(2023, z - 11017 - 8400)
  {
    assert (z + 719468) / 146097 == 5;
    assert (z + 719468) % 146097 == z - 11017;
    assert YearOfEra(z - 11017) == 23;
    assert StartOfYearOfEra(23) == 8400;
  }

  lemma CivilOfDayNumbers()
    ensures CivilFromDays(19722) == CivilDate(2023, 12, 31)
    ensures CivilFromDays(19723) == CivilDate(2024, 1, 1)
    ensures CivilFromDays(19753) == CivilDate(2024, 1, 31)
    ensures CivilFromDays(19754) == CivilDate(2024, 2, 1)
  {
    CivilInYear2023(19722);
    CivilInYear2023(19723);
    CivilInYear2023(19753);
    CivilInYear2023(19754);
  }

  /** 2024-01-31 23:00 and 2024-02-01 00:00, an hour apart, are different
      days: the month differs. */
  lemma MonthBoundary()
    ensures CivilOf(MidnightOf(19753) + 23 * MsPerHour) == CivilDate(2024, 1, 31)
    ensures CivilOf(MidnightOf(19754)) == CivilDate(2024, 2, 1)
    ensures !IsSameDay(MidnightOf(19753) + 23 * MsPerHour, MidnightOf(19754))
  {
    CivilOfDayNumbers();
    assert DayNumber(MidnightOf(19753) + 23 * MsPerHour) == 19753;
    MidnightOfDay(19754);
  }

  /** 2023-12-31 23:00 and 2024-01-01 00:00, an hour apart, are different
      days: the year differs. */
  lemma YearBoundary()
    ensures CivilOf(MidnightOf(19722) + 23 * MsPerHour) == CivilDate(2023, 12, 31)
    ensures CivilOf(MidnightOf(19723)) == CivilDate(2024, 1, 1)
    ensures !IsSameDay(MidnightOf(19722) + 23 * MsPerHour, MidnightOf(19723))
  {
    CivilOfDayNumbers();
    assert DayNumber(MidnightOf(19722) + 23 * MsPerHour) == 19722;
    MidnightOfDay(19723);
  }

  /** 2023-12-31 and 2024-01-31 share the day of the month but are different
      days. */
  lemma SameDayOfMonthOtherMonth()
    ensures DayOfMonth(MidnightOf(19722)) == DayOfMonth(MidnightOf(19753)) == 31
    ensures !IsSameDay(MidnightOf(19722), MidnightOf(19753))
  {
    CivilOfDayNumbers();
    MidnightOfDay(19722);
    MidnightOfDay(19753);
  }

  // ---------------------------------------------------------------------------
  // getStartOfDay

  /** getStartOfDay: the copy of `t` with hours, minutes, seconds and
      milliseconds set to zero. */
  function StartOfDay(t: Instant): (r: Instant)
    ensures IsSameDay(r, t)
    ensures Hours(r) == 0 && Minutes(r) == 0 && Seconds(r) == 0 && Milliseconds(r) == 0
    ensures r <= t < r + MsPerDay
  {
    var r := MidnightOf(DayNumber(t));
    MidnightOfDay(DayNumber(t));
    MidnightBounds(t);
    SameDayIffSameDayNumber(r, t);
    r
  }

  lemma StartOfDayIdempotent(t: Instant)
    ensures StartOfDay(StartOfDay(t)) == StartOfDay(t)
  {
    MidnightOfDay(DayNumber(t));
  }

  /** Two instants have the same start of day exactly when they are on the
      same calendar day. */
  lemma StartOfDayIffSameDay(a: Instant, b: Instant)
    ensures StartOfDay(a) == StartOfDay(b) <==> IsSameDay(a, b)
  {
    SameDayIffSameDayNumber(a, b);
  }

  // ---------------------------------------------------------------------------
  // The trailing week

  /** `d.setDate(d.getDate() + k)`: the same time of day, `k` days later
      (daylight-saving shifts are not modelled). */
  function ShiftDays(t: Instant, k: int): (r: Instant)
    ensures DayNumber(r) == DayNumber(t) + k
    ensures TimeInDay(r) == TimeInDay(t)
  {
    t + k * MsPerDay
  }

  /** The 7 instants `now - 6 days`, ..., `now`, oldest first. */
  function WeekWindow(now: Instant): (w: seq<Instant>)
    ensures |w| == 7
    ensures forall k | 0 <= k < 7 :: DayNumber(w[k]) == DayNumber(now) - 6 + k
  {
    seq(7, k => ShiftDays(now, k - 6))
  }

  /** The window covers seven distinct calendar days, oldest first, and its
      last day is today. */
  lemma WeekWindowDays(now: Instant)
    ensures IsSameDay(WeekWindow(now)[6], now)
    ensures forall j, k | 0 <= j < k < 7 :: !IsSameDay(WeekWindow(now)[j], WeekWindow(now)[k])
  {
    var w := WeekWindow(now);
    SameDayIffSameDayNumber(w[6], now);
    forall j, k | 0 <= j < k < 7 ensures !IsSameDay(w[j], w[k]) {
      SameDayIffSameDayNumber(w[j], w[k]);
    }
  }

  /** getLast7Days: the weekday labels of the trailing week, oldest first.
      `weekday` stands for the fixed pt-BR short weekday formatter. */
  method Last7Days(now: Instant, weekday: Instant -> string) returns (days: seq<string>)
    ensures |days| == 7
    ensures forall k | 0 <= k < 7 :: days[k] == weekday(WeekWindow(now)[k])
  {
    days := [];
    var i := 6;
    while i >= 0
      invariant -1 <= i <= 6
      invariant |days| == 6 - i
      invariant forall k | 0 <= k < |days| :: days[k] == weekday(ShiftDays(now, k - 6))
    {
      var d := ShiftDays(now, -i);
      days := days + [weekday(d)];
      i := i - 1;
    }
  }
}

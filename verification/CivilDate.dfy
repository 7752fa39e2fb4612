/** Civil dates from Unix seconds, against a calendar counted out year by year and month by month. */
module CivilDate {
  import opened Prelude

  type u32 = x: int | 0 <= x < 0x1_0000_0000

  type i64 = x: int | -0x8000_0000_0000_0000 <= x < 0x8000_0000_0000_0000

  predicate FitsI32(x: int) {
    -0x8000_0000 <= x < 0x8000_0000
  }

  /** `x as i32`, and the wrap-around of an `i32` sum. */
  function AsI32(x: int): (r: int)
    ensures FitsI32(r) && (r == x <==> FitsI32(x))
  {
    (x + 0x8000_0000) % 0x1_0000_0000 - 0x8000_0000
  }

  /** A `u32` difference, where it does not underflow. */
  function Minus(a: u32, b: u32): u32
    requires b <= a
  {
    a - b
  }

  // ---------- the calendar ----------

  datatype Date = Date(year: int, month: int, day: int)

  predicate IsLeap(y: int) {
    y % 4 == 0 && (y % 100 != 0 || y % 400 == 0)
  }

  function DaysInMonth(y: int, m: int): nat {
    if m == 2 then (if IsLeap(y) then 29 else 28)
    else if m == 4 || m == 6 || m == 9 || m == 11 then 30
    else 31
  }

  function DaysInYear(y: int): nat {
    if IsLeap(y) then 366 else 365
  }

  /** From 1970-01-01 to the first day of `y`, counted one year at a time. */
  function DaysToYear(y: int): int
    decreases if y >= 1970 then y - 1970 else 1970 - y
  {
    if y == 1970 then 0
    else if y > 1970 then DaysToYear(y - 1) + DaysInYear(y - 1)
    else DaysToYear(y + 1) - DaysInYear(y)
  }

  /** From the first day of `y` to the first day of its month `m`, counted one month at a time. */
  function DaysToMonth(y: int, m: int): nat {
    if m <= 1 then 0 else DaysToMonth(y, m - 1) + DaysInMonth(y, m - 1)
  }

  predicate ValidDate(d: Date) {
    1 <= d.month <= 12 && 1 <= d.day <= DaysInMonth(d.year, d.month)
  }

  function DayNumber(d: Date): int {
    DaysToYear(d.year) + DaysToMonth(d.year, d.month) + d.day - 1
  }

  function NextDate(d: Date): Date {
    if d.day < DaysInMonth(d.year, d.month) then d.(day := d.day + 1)
    else if d.month < 12 then Date(d.year, d.month + 1, 1)
    else Date(d.year + 1, 1, 1)
  }

  // ---------- the computation ----------

  datatype Civil = Civil(year: int, month: int, day: int, hour: u32, minute: u32, second: u32)

  /** Day of the 400-year era, from 1 March. */
  function YearOfEra(doe: u32): (yoe: u32)
    requires doe < 146_097
  {
    Minus(Minus(doe, doe / 1460) + doe / 36_524, doe / 146_096) / 365
  }

  /** The year that begins in March, and the day within it, of a day of a 400-year era. */
  function MarchYear(era: int, doe: u32): (int, u32)
    requires doe < 146_097
  {
    var yoe := YearOfEra(doe);
    EraSplits(doe);
    (yoe + era * 400, Minus(doe, Minus(365 * yoe + yoe / 4, yoe / 100)))
  }

  /** The days from 1 March of the year 0 to day `doy` of the March year `y`. */
  function MarchDays(y: int, doy: int): int {
    365 * y + y / 4 - y / 100 + y / 400 + doy
  }

  /** The month and the day of the month of a day of the March year. */
  function MonthAndDay(doy: u32): (r: (u32, u32))
    requires doy <= 365
  {
    var mp := (5 * doy + 2) / 153;
    MonthSplits(doy);
    (if mp < 10 then mp + 3 else Minus(mp, 9), Minus(doy, (153 * mp + 2) / 5) + 1)
  }

  /** The date of a day of an era; the year is 32 bits wide. */
  function NarrowDate(era: int, doe: u32): Date
    requires doe < 146_097
  {
    var (y, doy) := MarchYear(era, doe);
    EraSplits(doe);
    var (mo, d) := MonthAndDay(doy);
    var y32 := AsI32(y);
    Date(if mo <= 2 then AsI32(y32 + 1) else y32, mo, d)
  }

  function CivilFromUnix(secs: i64): Civil {
    var days := secs / 86_400;
    var rem := secs % 86_400;
    var z := days + 719_468;
    var date := NarrowDate(z / 146_097, z % 146_097);
    Civil(date.year, date.month, date.day, rem / 3600, rem % 3600 / 60, rem % 60)
  }

  /** The date of a day of an era, before the year is squeezed into 32 bits. */
  function DateOfEra(era: int, doe: u32): Date
    requires doe < 146_097
  {
    var (y, doy) := MarchYear(era, doe);
    EraSplits(doe);
    var (mo, d) := MonthAndDay(doy);
    Date(if mo <= 2 then y + 1 else y, mo, d)
  }

  function TrueDate(days: int): Date {
    DateOfEra((days + 719_468) / 146_097, (days + 719_468) % 146_097)
  }

  // ---------- the arithmetic of the era ----------

  /** A day of the era is a century, a four-year cycle, a year and a day of the year. */
  lemma EraSplits(doe: u32)
    requires doe < 146_097
    ensures var yoe := YearOfEra(doe);
      && yoe < 400
      && 365 * yoe + yoe / 4 - yoe / 100 <= doe
      && var doy := doe - (365 * yoe + yoe / 4 - yoe / 100);
         (doy <= 364 || (doy == 365 && IsLeap(yoe + 1)))
  {
    var (c, q, y, doy) := EraParts(doe);
    YearFromParts(doe, c, q, y, doy);
    QuotientsOfParts(c, q, y);
    if doy == 365 {
      LeapFromParts(c, q);
    }
  }

  /** Century, four-year cycle, year and day; the last of each may be a day longer. */
  function EraParts(doe: u32): (r: (int, int, int, int))
    requires doe < 146_097
    ensures var (c, q, y, doy) := r;
      && doe == 36_524 * c + 1461 * q + 365 * y + doy
      && 0 <= c <= 3 && 0 <= q <= 24 && 0 <= y <= 3 && 0 <= doy <= 365
      && (c < 3 ==> 1461 * q + 365 * y + doy <= 36_523)
      && (doy == 365 ==> y == 3 && (q < 24 || c == 3))
  {
    var c := Min(doe / 36_524, 3);
    var doc := doe - 36_524 * c;
    var q := doc / 1461;
    var doq := doc - 1461 * q;
    var y := Min(doq / 365, 3);
    (c, q, y, doq - 365 * y)
  }

  lemma QuotientsOfParts(c: int, q: int, y: int)
    requires 0 <= c <= 3 && 0 <= q <= 24 && 0 <= y <= 3
    ensures (100 * c + 4 * q + y) / 4 == 25 * c + q && (100 * c + 4 * q + y) / 100 == c
  {
  }

  lemma LeapFromParts(c: int, q: int)
    requires 0 <= c <= 3 && 0 <= q <= 24 && (q < 24 || c == 3)
    ensures IsLeap(100 * c + 4 * q + 4)
  {
  }

  /** The one-line formula for the year undoes the splitting, leap days and all. */
  lemma YearFromParts(doe: u32, c: int, q: int, y: int, doy: int)
    requires doe < 146_097 && doe == 36_524 * c + 1461 * q + 365 * y + doy
    requires 0 <= c <= 3 && 0 <= q <= 24 && 0 <= y <= 3 && 0 <= doy <= 365
    requires (c < 3 ==> 1461 * q + 365 * y + doy <= 36_523) && (doy == 365 ==> y == 3)
    ensures YearOfEra(doe) == 100 * c + 4 * q + y
  {
    CyclesBefore(doe, c, q, 365 * y + doy);
    CenturiesBefore(doe, c, 1461 * q + 365 * y + doy);
    var e := if 24 * c + q + 365 * y + doy >= 1460 then 1 else 0;
    assert doe - doe / 1460 + doe / 36_524 - doe / 146_096 == 365 * (100 * c + 4 * q + y) + doy - e;
  }

  lemma CyclesBefore(doe: int, c: int, q: int, rest: int)
    requires doe == 36_524 * c + 1461 * q + rest
    requires 0 <= c <= 3 && 0 <= q <= 24 && 0 <= rest <= 1460
    ensures doe / 1460 == 25 * c + q + if 24 * c + q + rest >= 1460 then 1 else 0
  {
    assert doe == 1460 * (25 * c + q) + (24 * c + q + rest);
  }

  lemma CenturiesBefore(doe: int, c: int, rest: int)
    requires doe == 36_524 * c + rest && 0 <= c <= 3 && 0 <= rest <= 36_524 && (c < 3 ==> rest < 36_524)
    ensures doe / 36_524 - doe / 146_096 == c
  {
  }

  lemma EraShift(yoe: int, era: int)
    requires 0 <= yoe < 400
    ensures var y := yoe + era * 400;
      && y / 4 == yoe / 4 + 100 * era
      && y / 100 == yoe / 100 + 4 * era
      && y / 400 == era
      && (IsLeap(y + 1) <==> IsLeap(yoe + 1))
  {
    QuotientShift(yoe, 4, 100, era);
    QuotientShift(yoe, 100, 4, era);
    QuotientShift(yoe, 400, 1, era);
    QuotientShift(yoe + 1, 4, 100, era);
    QuotientShift(yoe + 1, 100, 4, era);
    QuotientShift(yoe + 1, 400, 1, era);
  }

  lemma QuotientShift(x: int, k: int, m: int, era: int)
    requires (k == 4 && m == 100) || (k == 100 && m == 4) || (k == 400 && m == 1)
    ensures (x + 400 * era) / k == x / k + m * era && (x + 400 * era) % k == x % k
  {
    if k == 4 {
      assert (x + 400 * era) / 4 == x / 4 + 100 * era;
    } else if k == 100 {
      assert (x + 400 * era) / 100 == x / 100 + 4 * era;
    } else {
      assert (x + 400 * era) / 400 == x / 400 + era;
    }
  }

  lemma MarchYearIsExact(era: int, doe: u32)
    requires doe < 146_097
    ensures var (y, doy) := MarchYear(era, doe);
      && MarchDays(y, doy) == 146_097 * era + doe
      && (doy <= 364 || (doy == 365 && IsLeap(y + 1)))
  {
    var yoe := YearOfEra(doe);
    EraSplits(doe);
    EraShift(yoe, era);
    MarchSum(yoe, era, doe, yoe / 4, yoe / 100);
  }

  lemma MarchSum(yoe: int, era: int, doe: int, leaps: int, centuries: int)
    ensures 365 * (yoe + era * 400) + (leaps + 100 * era) - (centuries + 4 * era) + era
         + (doe - (365 * yoe + leaps - centuries)) == 146_097 * era + doe
  {
  }

  /** Lengths of the months from March to January, and what is left for February. */
  lemma MonthSplits(doy: int)
    requires 0 <= doy <= 365
    ensures var mp := (5 * doy + 2) / 153;
      && 0 <= mp <= 11
      && (153 * mp + 2) / 5 <= doy
      && (mp < 11 ==> doy < (153 * (mp + 1) + 2) / 5)
  {
  }

  // ---------- the calendar in closed form ----------

  lemma {:induction false} YearsInClosedForm(y: int)
    ensures DaysToYear(y) == 365 * (y - 1) + (y - 1) / 4 - (y - 1) / 100 + (y - 1) / 400 - 719_162
    decreases if y >= 1970 then y - 1970 else 1970 - y
  {
    if y > 1970 {
      YearsInClosedForm(y - 1);
      YearStep(y - 1);
    } else if y < 1970 {
      YearsInClosedForm(y + 1);
      YearStep(y);
    }
  }

  lemma YearStep(y: int)
    ensures y / 4 - (y - 1) / 4 - (y / 100 - (y - 1) / 100) + (y / 400 - (y - 1) / 400) == DaysInYear(y) - 365
  {
    QuotientStep(y, 4);
    QuotientStep(y, 100);
    QuotientStep(y, 400);
  }

  lemma QuotientStep(y: int, k: int)
    requires k == 4 || k == 100 || k == 400
    ensures y / k - (y - 1) / k == if y % k == 0 then 1 else 0
  {
  }

  lemma MonthsInClosedForm(y: int, m: int)
    requires 1 <= m <= 12
    ensures m <= 2 ==> DaysToMonth(y, m) == 31 * (m - 1)
    ensures m >= 3 ==> DaysToMonth(y, m) == DaysInYear(y) - 306 + (153 * (m - 3) + 2) / 5
  {
    var leap := if IsLeap(y) then 1 else 0;
    assert DaysToMonth(y, 1) == 0 && DaysToMonth(y, 2) == 31 && DaysToMonth(y, 3) == 59 + leap;
    assert DaysToMonth(y, 4) == 90 + leap && DaysToMonth(y, 5) == 120 + leap && DaysToMonth(y, 6) == 151 + leap;
    assert DaysToMonth(y, 7) == 181 + leap && DaysToMonth(y, 8) == 212 + leap && DaysToMonth(y, 9) == 243 + leap;
    assert DaysToMonth(y, 10) == 273 + leap && DaysToMonth(y, 11) == 304 + leap && DaysToMonth(y, 12) == 334 + leap;
  }

  /** From March to December, the date lies in the year the March year began in. */
  lemma SpringToWinter(y: int, doy: int)
    requires 0 <= doy <= 365 && (5 * doy + 2) / 153 < 10
    ensures var (mo, d) := MonthAndDay(doy);
      && 3 <= mo <= 12 && 1 <= d <= DaysInMonth(y, mo)
      && DayNumber(Date(y, mo, d)) == MarchDays(y, doy) - 719_468
  {
    var mp := (5 * doy + 2) / 153;
    MonthSplits(doy);
    MonthsInClosedForm(y, mp + 3);
    YearsInClosedForm(y);
    YearStep(y);
    MonthLength(y, mp);
  }

  lemma MonthLength(y: int, mp: int)
    requires 0 <= mp < 10
    ensures (153 * (mp + 1) + 2) / 5 - (153 * mp + 2) / 5 == DaysInMonth(y, mp + 3)
  {
  }

  /** January and February lie in the next year. */
  lemma LateWinter(y: int, doy: int)
    requires 0 <= doy <= 365 && (5 * doy + 2) / 153 >= 10 && (doy == 365 ==> IsLeap(y + 1))
    ensures var (mo, d) := MonthAndDay(doy);
      && 1 <= mo <= 2 && 1 <= d <= DaysInMonth(y + 1, mo)
      && DayNumber(Date(y + 1, mo, d)) == MarchDays(y, doy) - 719_468
  {
    var mp := (5 * doy + 2) / 153;
    MonthSplits(doy);
    MonthsInClosedForm(y + 1, mp - 9);
    YearsInClosedForm(y + 1);
  }

  lemma DateOfEraIsExact(era: int, doe: u32)
    requires doe < 146_097
    ensures ValidDate(DateOfEra(era, doe)) && DayNumber(DateOfEra(era, doe)) == 146_097 * era + doe - 719_468
  {
    var (y, doy) := MarchYear(era, doe);
    MarchYearIsExact(era, doe);
    if (5 * doy + 2) / 153 < 10 {
      SpringToWinter(y, doy);
    } else {
      LateWinter(y, doy);
    }
  }

  /** For every day number, the date is a valid one, and the calendar counts it back to that number. */
  lemma TrueDateIsExact(days: int)
    ensures ValidDate(TrueDate(days)) && DayNumber(TrueDate(days)) == days
  {
    var z := days + 719_468;
    DateOfEraIsExact(z / 146_097, z % 146_097);
  }

  // ---------- one date for each day ----------

  lemma {:induction false} YearsGrow(a: int, b: int)
    requires a <= b
    ensures DaysToYear(a) + 365 * (b - a) <= DaysToYear(b)
    ensures a < b ==> DaysToYear(a) + DaysInYear(a) <= DaysToYear(b)
    decreases b - a
  {
    if a < b {
      YearsGrow(a + 1, b);
      YearsInClosedForm(a);
      YearsInClosedForm(a + 1);
      YearStep(a);
    }
  }

  lemma {:induction false} MonthsGrow(y: int, a: int, b: int)
    requires 1 <= a < b <= 13
    ensures DaysToMonth(y, a) + DaysInMonth(y, a) <= DaysToMonth(y, b)
    decreases b - a
  {
    if a + 1 < b {
      MonthsGrow(y, a, b - 1);
    }
  }

  lemma WithinYear(d: Date)
    requires ValidDate(d)
    ensures 0 <= DaysToMonth(d.year, d.month) + d.day - 1 < DaysInYear(d.year)
  {
    MonthsInClosedForm(d.year, 12);
    MonthsGrow(d.year, d.month, 13);
    assert DaysToMonth(d.year, 13) == DaysToMonth(d.year, 12) + 31;
  }

  lemma DayNumberIsInjective(a: Date, b: Date)
    requires ValidDate(a) && ValidDate(b) && DayNumber(a) == DayNumber(b)
    ensures a == b
  {
    WithinYear(a);
    WithinYear(b);
    if a.year < b.year {
      YearsGrow(a.year, b.year);
    } else if b.year < a.year {
      YearsGrow(b.year, a.year);
    } else if a.month < b.month {
      MonthsGrow(a.year, a.month, b.month);
    } else if b.month < a.month {
      MonthsGrow(a.year, b.month, a.month);
    }
  }

  /** Successive days have successive dates. */
  lemma SuccessiveDays(days: int)
    ensures TrueDate(days + 1) == NextDate(TrueDate(days))
  {
    TrueDateIsExact(days);
    TrueDateIsExact(days + 1);
    NextIsOneMore(TrueDate(days));
    DayNumberIsInjective(NextDate(TrueDate(days)), TrueDate(days + 1));
  }

  lemma YearTurns(y: int)
    ensures DayNumber(Date(y + 1, 1, 1)) == DayNumber(Date(y, 12, 31)) + 1
  {
    MonthsInClosedForm(y, 12);
    YearsInClosedForm(y);
    YearsInClosedForm(y + 1);
    YearStep(y);
  }

  lemma NextIsOneMore(d: Date)
    requires ValidDate(d)
    ensures ValidDate(NextDate(d)) && DayNumber(NextDate(d)) == DayNumber(d) + 1
  {
    if d.month == 12 {
      YearTurns(d.year);
    }
  }

  /** The seconds of a date and a time of day. */
  function UnixSeconds(c: Civil): int {
    86_400 * DayNumber(Date(c.year, c.month, c.day)) + 3600 * c.hour + 60 * c.minute + c.second
  }

  predicate ValidCivil(c: Civil) {
    ValidDate(Date(c.year, c.month, c.day)) && c.hour < 24 && c.minute < 60 && c.second < 60
  }

  /** Wrapping to 32 bits before or after adding one is the same. */
  lemma WrapThenAdd(y: int)
    ensures AsI32(AsI32(y) + 1) == AsI32(y + 1)
  {
    var k := (y + 0x8000_0000) / 0x1_0000_0000;
    assert AsI32(y) == y - k * 0x1_0000_0000;
    WrapIgnoresMultiples(y + 1, k);
  }

  lemma WrapIgnoresMultiples(y: int, k: int)
    ensures AsI32(y - k * 0x1_0000_0000) == AsI32(y)
  {
  }

  lemma NarrowYear(era: int, doe: u32)
    requires doe < 146_097
    ensures NarrowDate(era, doe) == DateOfEra(era, doe).(year := AsI32(DateOfEra(era, doe).year))
  {
    WrapThenAdd(MarchYear(era, doe).0);
  }

  lemma SquashedYear(secs: i64)
    ensures var date := TrueDate(secs / 86_400);
      var c := CivilFromUnix(secs);
      && c.year == AsI32(date.year) && c.month == date.month && c.day == date.day
  {
    var z := secs / 86_400 + 719_468;
    NarrowYear(z / 146_097, z % 146_097);
  }

  /** The first second of the year -2^31, and the first of the year 2^31. */
  const FIRST_SECOND: int := 86_400 * -784_353_015_833

  const END_SECOND: int := 86_400 * 784_351_576_777

  /** A date lies in or after a year exactly when its day number has reached that year's first day. */
  lemma YearReached(d: Date, y: int)
    requires ValidDate(d)
    ensures y <= d.year <==> DaysToYear(y) <= DayNumber(d)
  {
    WithinYear(d);
    if y <= d.year {
      YearsGrow(y, d.year);
    } else {
      YearsGrow(d.year, y);
    }
  }

  lemma YearBounds()
    ensures DaysToYear(-0x8000_0000) == -784_353_015_833 && DaysToYear(0x8000_0000) == 784_351_576_777
  {
    YearsFrom(-0x8000_0000, -536_870_913, -21_474_837, -5_368_710);
    YearsFrom(0x8000_0000, 536_870_911, 21_474_836, 5_368_709);
  }

  lemma YearsFrom(y: int, fours: int, hundreds: int, fourHundreds: int)
    requires 4 * fours <= y - 1 < 4 * fours + 4
    requires 100 * hundreds <= y - 1 < 100 * hundreds + 100
    requires 400 * fourHundreds <= y - 1 < 400 * fourHundreds + 400
    ensures DaysToYear(y) == 365 * (y - 1) + fours - hundreds + fourHundreds - 719_162
  {
    YearsInClosedForm(y);
    QuotientIs(y - 1, 4, fours);
    QuotientIs(y - 1, 100, hundreds);
    QuotientIs(y - 1, 400, fourHundreds);
  }

  lemma QuotientIs(x: int, k: int, m: int)
    requires (k == 4 && 4 * m <= x < 4 * m + 4) || (k == 100 && 100 * m <= x < 100 * m + 100)
      || (k == 400 && 400 * m <= x < 400 * m + 400)
    ensures x / k == m
  {
    if k == 4 {
      assert x / 4 == m;
    } else if k == 100 {
      assert x / 100 == m;
    } else {
      assert x / 400 == m;
    }
  }

  /** The seconds whose year fits in 32 bits, as two numbers. */
  lemma WhenYearFits(secs: i64)
    ensures FitsI32(TrueDate(secs / 86_400).year) <==> FIRST_SECOND <= secs < END_SECOND
  {
    var days := secs / 86_400;
    var date := TrueDate(days);
    TrueDateIsExact(days);
    YearBounds();
    YearReached(date, -0x8000_0000);
    YearReached(date, 0x8000_0000);
  }

  lemma TimeOfDay(rem: int)
    requires 0 <= rem < 86_400
    ensures rem / 3600 < 24 && 0 <= rem % 3600 / 60 < 60
    ensures 3600 * (rem / 3600) + 60 * (rem % 3600 / 60) + rem % 60 == rem
  {
    assert rem % 3600 % 60 == rem % 60;
  }

  /**
   Over the whole range of `i64` seconds, the result names the right date and time exactly when
   the year fits in 32 bits; the comment beside the code claims the full range.
   */
  lemma ExactWhenYearFits(secs: i64)
    ensures var c := CivilFromUnix(secs);
      && c.hour < 24 && c.minute < 60 && c.second < 60
      && (ValidCivil(c) && UnixSeconds(c) == secs <==> FIRST_SECOND <= secs < END_SECOND)
  {
    var days := secs / 86_400;
    var c := CivilFromUnix(secs);
    SquashedYear(secs);
    WhenYearFits(secs);
    TrueDateIsExact(days);
    TimeOfDay(secs % 86_400);
    if ValidCivil(c) && UnixSeconds(c) == secs {
      assert DayNumber(Date(c.year, c.month, c.day)) == days;
      DayNumberIsInjective(Date(c.year, c.month, c.day), TrueDate(days));
    }
  }

  /** Every civil date and time with a 32-bit year is found again from its seconds. */
  lemma CivilRoundTrip(c: Civil)
    requires ValidCivil(c) && FitsI32(c.year)
    requires -0x8000_0000_0000_0000 <= UnixSeconds(c) < 0x8000_0000_0000_0000
    ensures CivilFromUnix(UnixSeconds(c)) == c
  {
    var n := DayNumber(Date(c.year, c.month, c.day));
    var rem := 3600 * c.hour + 60 * c.minute + c.second;
    SplitTime(c.hour, c.minute, c.second);
    SplitDay(n, rem);
    DateFound(Date(c.year, c.month, c.day));
    assert UnixSeconds(c) == 86_400 * n + rem;
    FieldsFound(UnixSeconds(c), n, rem, c);
  }

  lemma FieldsFound(secs: i64, n: int, rem: int, c: Civil)
    requires secs / 86_400 == n && secs % 86_400 == rem
    requires TrueDate(n) == Date(c.year, c.month, c.day) && FitsI32(c.year)
    requires rem / 3600 == c.hour && rem % 3600 / 60 == c.minute && rem % 60 == c.second
    ensures CivilFromUnix(secs) == c
  {
    SquashedYear(secs);
  }

  lemma DateFound(d: Date)
    requires ValidDate(d)
    ensures TrueDate(DayNumber(d)) == d
  {
    TrueDateIsExact(DayNumber(d));
    DayNumberIsInjective(d, TrueDate(DayNumber(d)));
  }

  lemma SplitDay(n: int, rem: int)
    requires 0 <= rem < 86_400
    ensures (86_400 * n + rem) / 86_400 == n && (86_400 * n + rem) % 86_400 == rem
  {
  }

  lemma SplitTime(h: int, m: int, s: int)
    requires 0 <= h < 24 && 0 <= m < 60 && 0 <= s < 60
    ensures var rem := 3600 * h + 60 * m + s;
      && 0 <= rem < 86_400 && rem / 3600 == h && rem % 3600 == 60 * m + s && rem % 3600 / 60 == m && rem % 60 == s
  {
    var rem := 3600 * h + 60 * m + s;
    assert rem == 60 * (60 * h + m) + s;
  }
}

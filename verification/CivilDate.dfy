/** Unix seconds to a calendar date, and back. */
module CivilDate {
  datatype Date = Date(year: int, month: int, day: int)

  datatype Stamp = Stamp(date: Date, hour: int, minute: int)

  predicate LeapYear(y: int) {
    y % 4 == 0 && (y % 100 != 0 || y % 400 == 0)
  }

  function MonthLength(y: int, m: int): int {
    if m == 2 then if LeapYear(y) then 29 else 28
    else if m == 4 || m == 6 || m == 9 || m == 11 then 30
    else 31
  }

  /** A day of the proleptic Gregorian calendar. */
  predicate Valid(d: Date) {
    1 <= d.month <= 12 && 1 <= d.day <= MonthLength(d.year, d.month)
  }

  // ---- The source's arithmetic, in its own steps ------------------------------------------------

  function YearOfEra(doe: int): int {
    (doe - doe / 1460 + doe / 36524 - doe / 146096) / 365
  }

  /** Days before the March-based year `y` of an era. */
  function YearStart(y: int): int {
    365 * y + y / 4 - y / 100
  }

  /** Days since the 1 March that begins the year of the era. */
  function DayOfYear(doe: int): int {
    doe - YearStart(YearOfEra(doe))
  }

  /** Months counted from March. */
  function MonthIndex(doy: int): int {
    (5 * doy + 2) / 153
  }

  function MonthStart(mp: int): int {
    (153 * mp + 2) / 5
  }

  function DateOf(era: int, yoe: int, doy: int): Date {
    var mp := MonthIndex(doy);
    var m := if mp < 10 then mp + 3 else mp - 9;
    var y := yoe + era * 400;
    Date(if m <= 2 then y + 1 else y, m, doy - MonthStart(mp) + 1)
  }

  function CivilFromEpoch(z: int): Date {
    var doe := z % 146097;
    DateOf(z / 146097, YearOfEra(doe), DayOfYear(doe))
  }

  function CivilFromDays(days: int): Date {
    CivilFromEpoch(days + 719468)
  }

  function UtcStamp(secs: nat): Stamp {
    var rem := secs % 86400;
    Stamp(CivilFromDays(secs / 86400), rem / 3600, rem % 3600 / 60)
  }

  // ---- An independent calendar: counting days by whole years and months --------------------------

  function YearLength(y: int): int {
    if LeapYear(y) then 366 else 365
  }

  /** Days before the month, in a year that starts in January. */
  function DaysBefore(y: int, m: int): int
    requires 1 <= m <= 13
    decreases m
  {
    if m == 1 then 0 else DaysBefore(y, m - 1) + MonthLength(y, m - 1)
  }

  /** The day after a valid date. */
  function NextDay(d: Date): Date {
    if d.day < MonthLength(d.year, d.month) then Date(d.year, d.month, d.day + 1)
    else if d.month < 12 then Date(d.year, d.month + 1, 1)
    else Date(d.year + 1, 1, 1)
  }

  // ---- One day later in the arithmetic is one day later in the calendar ----------------------------

  /** The March-based year `y` ends with the February of year y + 1. */
  function LastDay(y: int): int {
    if LeapYear(y + 1) then 365 else 364
  }

  lemma YearStartStep(y: int)
    requires 0 <= y < 399
    ensures YearStart(y + 1) == YearStart(y) + LastDay(y) + 1
  {
    FourthStep(y);
    HundredthStep(y);
    LeapMultiples(y + 1);
  }

  lemma FourthStep(y: int)
    ensures (y + 1) / 4 == y / 4 + if (y + 1) % 4 == 0 then 1 else 0
  {
  }

  lemma HundredthStep(y: int)
    ensures (y + 1) / 100 == y / 100 + if (y + 1) % 100 == 0 then 1 else 0
  {
  }

  lemma YearStartMonotone(a: int, b: int)
    requires 0 <= a <= b
    ensures YearStart(a) <= YearStart(b)
  {
  }

  /** A day of the era by century, four-year group, year and day: the February 29s close groups and the era. */
  predicate Position(c: int, q: int, y: int, r: int) {
    && 0 <= c <= 3 && 0 <= q <= 24 && 0 <= y <= 3 && 0 <= r
    && (if y == 3 && (q < 24 || c == 3) then r <= 365 else r <= 364)
  }

  function DayAt(c: int, q: int, y: int, r: int): int {
    36524 * c + 1461 * q + 365 * y + r
  }

  lemma Locate(doe: int) returns (c: int, q: int, y: int, r: int)
    requires 0 <= doe < 146097
    ensures Position(c, q, y, r) && doe == DayAt(c, q, y, r)
  {
    c := if doe / 36524 < 3 then doe / 36524 else 3;
    var inCentury := doe - 36524 * c;
    q := inCentury / 1461;
    var inGroup := inCentury - 1461 * q;
    y := if inGroup / 365 < 3 then inGroup / 365 else 3;
    r := inGroup - 365 * y;
  }

  lemma CenturyQuotients(c: int, q: int, y: int, r: int)
    requires Position(c, q, y, r)
    ensures var doe := DayAt(c, q, y, r);
            doe / 36524 - doe / 146096 == c
  {
    CenturyBounds(c, q, y, r);
    CenturyOf(DayAt(c, q, y, r), c);
  }

  lemma CenturyBounds(c: int, q: int, y: int, r: int)
    requires Position(c, q, y, r)
    ensures 36524 * c <= DayAt(c, q, y, r) < 36524 * c + 36524 || (c == 3 && DayAt(c, q, y, r) == 146096)
  {
  }

  lemma CenturyOf(doe: int, c: int)
    requires 0 <= c <= 3 && (36524 * c <= doe < 36524 * c + 36524 || (c == 3 && doe == 146096))
    ensures doe / 36524 - doe / 146096 == c
  {
  }

  lemma GroupQuotient(c: int, q: int, y: int, r: int)
    requires Position(c, q, y, r)
    ensures DayAt(c, q, y, r) / 1460 == 25 * c + q + if 24 * c + q + 365 * y + r >= 1460 then 1 else 0
  {
  }

  lemma YearAt(c: int, q: int, y: int, r: int)
    requires Position(c, q, y, r)
    ensures YearOfEra(DayAt(c, q, y, r)) == 100 * c + 4 * q + y
    ensures YearStart(100 * c + 4 * q + y) == 36524 * c + 1461 * q + 365 * y
  {
    CenturyQuotients(c, q, y, r);
    GroupQuotient(c, q, y, r);
    var year, late := 100 * c + 4 * q + y, if 24 * c + q + 365 * y + r >= 1460 then 1 else 0;
    assert YearOfEra(DayAt(c, q, y, r)) == (365 * year + (r - late)) / 365;
    assert year / 4 == 25 * c + q && year / 100 == c;
  }

  lemma DayWithinYear(c: int, q: int, y: int, r: int)
    requires Position(c, q, y, r)
    ensures r <= LastDay(100 * c + 4 * q + y)
  {
  }

  lemma YearContainsDay(doe: int)
    requires 0 <= doe < 146097
    ensures 0 <= YearOfEra(doe) < 400
    ensures 0 <= DayOfYear(doe) <= LastDay(YearOfEra(doe))
    ensures YearStart(YearOfEra(doe)) + DayOfYear(doe) == doe
  {
    var c, q, y, r := Locate(doe);
    YearAt(c, q, y, r);
    DayWithinYear(c, q, y, r);
  }

  lemma YearIsUnique(a: int, r: int, b: int, s: int)
    requires 0 <= a < 400 && 0 <= b < 400 && 0 <= r <= LastDay(a) && 0 <= s <= LastDay(b)
    requires YearStart(a) + r == YearStart(b) + s
    ensures a == b && r == s
  {
    if a < b {
      YearStartStep(a);
      YearStartMonotone(a + 1, b);
    } else if b < a {
      YearStartStep(b);
      YearStartMonotone(b + 1, a);
    }
  }

  lemma Shift4(y: int, k: int)
    ensures (y + 4 * k) % 4 == y % 4
  {
  }

  lemma Shift100(y: int, k: int)
    ensures (y + 100 * k) % 100 == y % 100
  {
  }

  lemma Shift400(y: int, k: int)
    ensures (y + 400 * k) % 400 == y % 400
  {
  }

  lemma LeapPeriod(y: int, era: int)
    ensures LeapYear(y + 400 * era) == LeapYear(y)
  {
    Shift4(y, 100 * era);
    Shift100(y, 4 * era);
    Shift400(y, era);
    assert 4 * (100 * era) == 400 * era && 100 * (4 * era) == 400 * era;
  }

  lemma MonthHolds(doy: int)
    requires 0 <= doy <= 365
    ensures 0 <= MonthIndex(doy) <= 11 && MonthStart(MonthIndex(doy)) <= doy < MonthStart(MonthIndex(doy) + 1)
  {
  }

  lemma MonthIsUnique(doy: int, mp: int)
    requires 0 <= mp <= 11 && MonthStart(mp) <= doy < MonthStart(mp + 1)
    ensures MonthIndex(doy) == mp
  {
  }

  /** The days of the months from March to January. */
  lemma MonthSpans(mp: int)
    requires 0 <= mp <= 10
    ensures MonthStart(mp + 1) - MonthStart(mp) == if mp == 1 || mp == 3 || mp == 6 || mp == 8 then 30 else 31
  {
  }

  /** Within one March-based year the arithmetic steps day by day through its twelve months. */
  lemma DayStep(era: int, yoe: int, doy: int)
    requires 0 <= doy < LastDay(yoe)
    ensures Valid(DateOf(era, yoe, doy)) && DateOf(era, yoe, doy + 1) == NextDay(DateOf(era, yoe, doy))
  {
    LeapPeriod(yoe + 1, era);
    MonthHolds(doy);
    var mp := MonthIndex(doy);
    assert MonthStart(11) == 337;
    if mp <= 10 {
      MonthSpans(mp);
    }
    if doy + 1 < MonthStart(mp + 1) {
      MonthIsUnique(doy + 1, mp);
    } else {
      MonthIsUnique(doy + 1, mp + 1);
    }
  }

  /** Its last day is a valid end of February, followed by 1 March. */
  lemma YearEndStep(era: int, yoe: int)
    ensures Valid(DateOf(era, yoe, LastDay(yoe)))
    ensures DateOf(era, yoe + 1, 0) == NextDay(DateOf(era, yoe, LastDay(yoe)))
  {
    LeapPeriod(yoe + 1, era);
  }

  lemma EpochSplit(z: int, era: int, doe: int)
    requires 0 <= doe < 146097 && z == 146097 * era + doe
    ensures z / 146097 == era && z % 146097 == doe
  {
  }

  lemma EpochJoin(z: int, era: int, doe: int)
    requires era == z / 146097 && doe == z % 146097
    ensures 0 <= doe < 146097 && z == 146097 * era + doe
  {
  }

  lemma DaysShift(days: int, z: int)
    requires z == days + 719468
    ensures CivilFromDays(days) == CivilFromEpoch(z)
  {
  }

  lemma CivilAt(z: int, era: int, doe: int)
    requires 0 <= doe < 146097 && z == 146097 * era + doe
    ensures CivilFromEpoch(z) == DateOf(era, YearOfEra(doe), DayOfYear(doe))
  {
    EpochSplit(z, era, doe);
  }

  lemma FirstDay()
    ensures YearOfEra(0) == 0 && DayOfYear(0) == 0
  {
  }

  lemma FinalDay()
    ensures YearOfEra(146096) == 399 && DayOfYear(146096) == 365 && LastDay(399) == 365
  {
  }

  /** The day after, in the arithmetic and within one era. */
  lemma EraDayStep(doe: int)
    requires 0 <= doe < 146096
    ensures var yoe, doy := YearOfEra(doe), DayOfYear(doe);
            if doy < LastDay(yoe) then YearOfEra(doe + 1) == yoe && DayOfYear(doe + 1) == doy + 1
            else YearOfEra(doe + 1) == yoe + 1 && DayOfYear(doe + 1) == 0
  {
    YearContainsDay(doe);
    YearContainsDay(doe + 1);
    var yoe, doy := YearOfEra(doe), DayOfYear(doe);
    if doy < LastDay(yoe) {
      YearIsUnique(YearOfEra(doe + 1), DayOfYear(doe + 1), yoe, doy + 1);
    } else {
      NotLastYear(yoe, doy, doe);
      YearStartStep(yoe);
      YearIsUnique(YearOfEra(doe + 1), DayOfYear(doe + 1), yoe + 1, 0);
    }
  }

  lemma NotLastYear(yoe: int, doy: int, doe: int)
    requires 0 <= yoe < 400 && doy == LastDay(yoe) && YearStart(yoe) + doy == doe < 146096
    ensures yoe < 399
  {
  }

  predicate Placed(era: int, yoe: int, doy: int, next: Date) {
    if doy < LastDay(yoe) then next == DateOf(era, yoe, doy + 1) else next == DateOf(era, yoe + 1, 0)
  }

  lemma PlacedIsNext(era: int, yoe: int, doy: int, next: Date)
    requires 0 <= doy <= LastDay(yoe) && Placed(era, yoe, doy, next)
    ensures Valid(DateOf(era, yoe, doy)) && next == NextDay(DateOf(era, yoe, doy))
  {
    if doy < LastDay(yoe) {
      DayStep(era, yoe, doy);
    } else {
      YearEndStep(era, yoe);
    }
  }

  lemma NewEra(era: int)
    ensures DateOf(era + 1, 0, 0) == DateOf(era, 400, 0)
  {
  }

  lemma DayStepIsPlaced(era: int, doe: int)
    requires 0 <= doe < 146096
    ensures Placed(era, YearOfEra(doe), DayOfYear(doe), DateOf(era, YearOfEra(doe + 1), DayOfYear(doe + 1)))
  {
    EraDayStep(doe);
  }

  lemma EraEndIsPlaced(era: int)
    ensures Placed(era, YearOfEra(146096), DayOfYear(146096), DateOf(era + 1, YearOfEra(0), DayOfYear(0)))
  {
    FirstDay();
    FinalDay();
    NewEra(era);
  }

  lemma NextIsPlaced(next: int, era: int, doe: int)
    requires 0 <= doe < 146097 && next == 146097 * era + doe + 1
    ensures Placed(era, YearOfEra(doe), DayOfYear(doe), CivilFromEpoch(next))
  {
    if doe < 146096 {
      NextInEra(next, era, doe);
    } else {
      NextEra(next, era, doe);
    }
  }

  lemma NextInEra(next: int, era: int, doe: int)
    requires 0 <= doe < 146096 && next == 146097 * era + doe + 1
    ensures Placed(era, YearOfEra(doe), DayOfYear(doe), CivilFromEpoch(next))
  {
    CivilAt(next, era, doe + 1);
    DayStepIsPlaced(era, doe);
  }

  lemma NextEra(next: int, era: int, doe: int)
    requires doe == 146096 && next == 146097 * era + doe + 1
    ensures Placed(era, YearOfEra(doe), DayOfYear(doe), CivilFromEpoch(next))
  {
    CivilAt(next, era + 1, 0);
    EraEndIsPlaced(era);
  }

  lemma CalendarStep(z: int, next: int, era: int, doe: int)
    requires 0 <= doe < 146097 && z == 146097 * era + doe && next == z + 1
    ensures Valid(CivilFromEpoch(z)) && CivilFromEpoch(next) == NextDay(CivilFromEpoch(z))
  {
    YearContainsDay(doe);
    CivilAt(z, era, doe);
    NextIsPlaced(next, era, doe);
    PlacedIsNext(era, YearOfEra(doe), DayOfYear(doe), CivilFromEpoch(next));
  }

  /** Each next day number is the next day of the calendar. */
  lemma CivilIsTheCalendar(days: int)
    ensures Valid(CivilFromDays(days)) && CivilFromDays(days + 1) == NextDay(CivilFromDays(days))
  {
    var z := days + 719468;
    var era, doe := z / 146097, z % 146097;
    EpochJoin(z, era, doe);
    CalendarStep(z, z + 1, era, doe);
    DaysShift(days, z);
    DaysShift(days + 1, z + 1);
  }

  /** Day zero is 1 January 1970. */
  lemma EpochIs()
    ensures CivilFromDays(0) == Date(1970, 1, 1)
  {
    assert 719468 / 146097 == 4 && 719468 % 146097 == 135080;
    assert 135080 / 1460 == 92 && 135080 / 36524 == 3 && 135080 / 146096 == 0;
    assert YearOfEra(135080) == 134991 / 365 == 369;
    assert DayOfYear(135080) == 306 && MonthIndex(306) == 10 && MonthStart(10) == 306;
  }

  // ---- The inverse --------------------------------------------------------------------------------

  /** Days before 1 January of a year, counting 365 a year and a day for each leap year passed. */
  function YearDays(y: int): int {
    365 * y + (y - 1) / 4 - (y - 1) / 100 + (y - 1) / 400
  }

  function DaysFromCivil(d: Date): int
    requires Valid(d)
  {
    YearDays(d.year) - 719527 + DaysBefore(d.year, d.month) + d.day - 1
  }

  lemma LeapMultiples(y: int)
    ensures y % 400 == 0 ==> y % 100 == 0
    ensures y % 100 == 0 ==> y % 4 == 0
  {
    if y % 400 == 0 {
      Shift100(0, 4 * (y / 400));
      assert y == 0 + 100 * (4 * (y / 400));
    }
    if y % 100 == 0 {
      Shift4(0, 25 * (y / 100));
      assert y == 0 + 4 * (25 * (y / 100));
    }
  }

  lemma YearDaysStep(y: int)
    ensures YearDays(y + 1) == YearDays(y) + YearLength(y)
  {
    LeapMultiples(y);
    FloorStep(y, 4);
    FloorStep(y, 100);
    FloorStep(y, 400);
  }

  lemma FloorStep(y: int, k: int)
    requires k == 4 || k == 100 || k == 400
    ensures y / k == (y - 1) / k + if y % k == 0 then 1 else 0
  {
  }

  lemma YearHasTwelveMonths(y: int)
    ensures DaysBefore(y, 13) == YearLength(y)
  {
  }

  lemma NextDayCounts(d: Date)
    requires Valid(d)
    ensures Valid(NextDay(d)) && DaysFromCivil(NextDay(d)) == DaysFromCivil(d) + 1
  {
    if d.day == MonthLength(d.year, d.month) && d.month == 12 {
      YearDaysStep(d.year);
      YearHasTwelveMonths(d.year);
    }
  }

  lemma EpochCounts()
    ensures Valid(Date(1970, 1, 1)) && DaysFromCivil(Date(1970, 1, 1)) == 0
  {
    assert YearDays(1970) == 719527;
  }

  predicate ComesBack(days: int) {
    Valid(CivilFromDays(days)) && DaysFromCivil(CivilFromDays(days)) == days
  }

  lemma NeighboursComeBack(days: int)
    ensures ComesBack(days) <==> ComesBack(days + 1)
  {
    CivilIsTheCalendar(days);
    NextDayCounts(CivilFromDays(days));
  }

  lemma {:induction false} AllComeBack(days: int)
    ensures ComesBack(days)
    decreases if days < 0 then -days else days
  {
    if days == 0 {
      EpochIs();
      EpochCounts();
    } else if days > 0 {
      AllComeBack(days - 1);
      NeighboursComeBack(days - 1);
    } else {
      AllComeBack(days + 1);
      NeighboursComeBack(days);
    }
  }

  /** The count comes back from the date. */
  lemma DaysComeBack(days: int)
    ensures Valid(CivilFromDays(days)) && DaysFromCivil(CivilFromDays(days)) == days
  {
    AllComeBack(days);
  }

  predicate Earlier(d: Date, e: Date) {
    d.year < e.year || (d.year == e.year && (d.month < e.month || (d.month == e.month && d.day < e.day)))
  }

  lemma {:induction false} MonthsCount(y: int, m: int, n: int)
    requires 1 <= m < n <= 13
    ensures DaysBefore(y, m) + MonthLength(y, m) <= DaysBefore(y, n)
    decreases n
  {
    if m < n - 1 {
      MonthsCount(y, m, n - 1);
    }
  }

  lemma {:induction false} YearsCount(y: int, x: int)
    requires y < x
    ensures YearDays(y) + YearLength(y) <= YearDays(x)
    decreases x - y
  {
    YearDaysStep(x - 1);
    if y < x - 1 {
      YearsCount(y, x - 1);
    }
  }

  lemma EarlierCountsLess(d: Date, e: Date)
    requires Valid(d) && Valid(e) && Earlier(d, e)
    ensures DaysFromCivil(d) < DaysFromCivil(e)
  {
    if d.year < e.year {
      YearsCount(d.year, e.year);
      MonthsCount(d.year, d.month, 13);
      YearHasTwelveMonths(d.year);
      FirstMonth(e.year, e.month);
    } else if d.month < e.month {
      MonthsCount(d.year, d.month, e.month);
    }
  }

  lemma {:induction false} FirstMonth(y: int, m: int)
    requires 1 <= m <= 13
    ensures DaysBefore(y, m) >= 0
    decreases m
  {
  }

  /** Later days have later dates. */
  lemma DatesIncrease(a: int, b: int)
    requires a < b
    ensures Earlier(CivilFromDays(a), CivilFromDays(b))
  {
    DaysComeBack(a);
    DaysComeBack(b);
    if Earlier(CivilFromDays(b), CivilFromDays(a)) {
      EarlierCountsLess(CivilFromDays(b), CivilFromDays(a));
    }
  }

  /** Every calendar date is the date of exactly one day count. */
  lemma DatesComeBack(d: Date)
    requires Valid(d)
    ensures CivilFromDays(DaysFromCivil(d)) == d
  {
    var e := CivilFromDays(DaysFromCivil(d));
    DaysComeBack(DaysFromCivil(d));
    if Earlier(d, e) {
      EarlierCountsLess(d, e);
    } else if Earlier(e, d) {
      EarlierCountsLess(e, d);
    }
  }

  /** A stamp is a valid date and time of day, and names the minute the seconds fall in. */
  lemma StampNamesItsMinute(secs: nat)
    ensures var s := UtcStamp(secs);
            && Valid(s.date) && 0 <= s.hour < 24 && 0 <= s.minute < 60
            && (DaysFromCivil(s.date) * 24 + s.hour) * 60 + s.minute == secs / 60
  {
    DaysComeBack(secs / 86400);
  }
}

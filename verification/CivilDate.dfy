/**
 Calendar dates for the log header (crates/bb-archipelago/src/logging.rs:66-87).

 The conversion works on a year that begins in March and divides towards zero, as
 Rust does.  It is proved to be the inverse of the Gregorian day number built here
 from month lengths and the leap rule (section 5.7 and appendix C of RFC 3339).
 */
module CivilDate {
  import opened Wrappers
  import opened Decimal

  // ----------------------------------------------------------- the calendar

  datatype Date = Date(year: int, month: int, day: int)

  predicate IsLeap(year: int) {
    year % 4 == 0 && (year % 100 != 0 || year % 400 == 0)
  }

  function DaysInMonth(year: int, month: int): int {
    if month == 2 then if IsLeap(year) then 29 else 28
    else if month == 4 || month == 6 || month == 9 || month == 11 then 30
    else 31
  }

  predicate IsDate(date: Date) {
    && 1 <= date.month <= 12
    && 1 <= date.day <= DaysInMonth(date.year, date.month)
  }

  function NextDay(date: Date): Date {
    if date.day < DaysInMonth(date.year, date.month) then date.(day := date.day + 1)
    else if date.month < 12 then Date(date.year, date.month + 1, 1)
    else Date(date.year + 1, 1, 1)
  }

  /** Days from the first of January of year 0 to that of `year`. */
  function DaysBeforeYear(year: int): int {
    365 * year + Multiples4(year) - Multiples100(year) + Multiples400(year)
  }

  // How many years from 0 up to `year` (not included) are multiples; negative
  // before year 0.
  function Multiples4(year: int): int { (year + 3) / 4 }
  function Multiples100(year: int): int { (year + 99) / 100 }
  function Multiples400(year: int): int { (year + 399) / 400 }

  function DaysBeforeMonth(year: int, month: int): int
    requires 1 <= month <= 13
    decreases month
  {
    if month == 1 then 0 else DaysBeforeMonth(year, month - 1) + DaysInMonth(year, month - 1)
  }

  /** Days since the first of January 1970. */
  function DayNumber(date: Date): int
    requires 1 <= date.month <= 12
  {
    DaysBeforeYear(date.year) + DaysBeforeMonth(date.year, date.month) + date.day - 1 - 719528
  }

  lemma YearLength(year: int)
    ensures DaysBeforeYear(year + 1) == DaysBeforeYear(year) + if IsLeap(year) then 366 else 365
    ensures DaysBeforeMonth(year, 13) == if IsLeap(year) then 366 else 365
  {
    MonthStarts(year);
    MoreMultiples(year);
    MultiplesNest(year);
  }

  lemma MoreMultiples(year: int)
    ensures Multiples4(year + 1) == Multiples4(year) + if year % 4 == 0 then 1 else 0
    ensures Multiples100(year + 1) == Multiples100(year) + if year % 100 == 0 then 1 else 0
    ensures Multiples400(year + 1) == Multiples400(year) + if year % 400 == 0 then 1 else 0
  {
  }

  lemma MultiplesNest(year: int)
    ensures year % 400 == 0 ==> year % 100 == 0
    ensures year % 100 == 0 ==> year % 4 == 0
  {
  }

  lemma MultiplesThrough(year: int)
    ensures Multiples4(year + 1) == year / 4 + 1
    ensures Multiples100(year + 1) == year / 100 + 1
    ensures Multiples400(year + 1) == year / 400 + 1
  {
  }

  /** The next day's number is the next number, and the epoch is day 0. */
  lemma NextDayIsNextNumber(date: Date)
    requires IsDate(date)
    ensures IsDate(NextDay(date))
    ensures DayNumber(NextDay(date)) == DayNumber(date) + 1
    ensures DayNumber(Date(1970, 1, 1)) == 0
  {
    YearLength(date.year);
    if date.day == DaysInMonth(date.year, date.month) && date.month < 12 {
      assert DaysBeforeMonth(date.year, date.month + 1) == DaysBeforeMonth(date.year, date.month) + date.day;
    }
  }

  lemma MonthStarts(year: int)
    ensures DaysBeforeMonth(year, 1) == 0 && DaysBeforeMonth(year, 2) == 31
    ensures var leap := if IsLeap(year) then 1 else 0;
            && DaysBeforeMonth(year, 3) == 59 + leap
            && DaysBeforeMonth(year, 4) == 90 + leap && DaysBeforeMonth(year, 5) == 120 + leap
            && DaysBeforeMonth(year, 6) == 151 + leap && DaysBeforeMonth(year, 7) == 181 + leap
            && DaysBeforeMonth(year, 8) == 212 + leap && DaysBeforeMonth(year, 9) == 243 + leap
            && DaysBeforeMonth(year, 10) == 273 + leap && DaysBeforeMonth(year, 11) == 304 + leap
            && DaysBeforeMonth(year, 12) == 334 + leap && DaysBeforeMonth(year, 13) == 365 + leap
  {
    assert DaysBeforeMonth(year, 3) == DaysBeforeMonth(year, 2) + DaysInMonth(year, 2);
    assert DaysBeforeMonth(year, 5) == DaysBeforeMonth(year, 3) + 61;
    assert DaysBeforeMonth(year, 7) == DaysBeforeMonth(year, 5) + 61;
    assert DaysBeforeMonth(year, 9) == DaysBeforeMonth(year, 7) + 62;
    assert DaysBeforeMonth(year, 11) == DaysBeforeMonth(year, 9) + 61;
    assert DaysBeforeMonth(year, 13) == DaysBeforeMonth(year, 11) + 61;
  }

  // --------------------------------------------------------- the conversion

  /** Rust's `/`: towards zero. */
  function Truncated(a: int, b: int): int
    requires b > 0
  {
    if a >= 0 then a / b else -(-a / b)
  }

  function CivilFromDays(days: int): Date {
    var z := days + 719468;
    var era := Truncated(if z >= 0 then z else z - 146096, 146097);
    EraIsFloor(z);
    DateInEra(era, z - era * 146097)
  }

  /** The date of day `doe` of a 400-year era.  No operand is negative from here
      on, so the two divisions agree. */
  function DateInEra(era: int, doe: nat): Date
    requires doe < 146097
  {
    YearOfEra(doe);
    var yoe := YearInEra(doe);
    MarchDateOf(yoe + era * 400, doe - (365 * yoe + yoe / 4 - yoe / 100))
  }

  function YearInEra(doe: nat): int {
    (doe - doe / 1460 + doe / 36524 - doe / 146096) / 365
  }

  /** The date of day `doy` of the year that begins in March of `year`. */
  function MarchDateOf(year: int, doy: nat): Date {
    var mp := (5 * doy + 2) / 153;
    var day := doy - (153 * mp + 2) / 5 + 1;
    var month := if mp < 10 then mp + 3 else mp - 9;
    Date(if month <= 2 then year + 1 else year, month, day)
  }

  /** The era is the floor of the quotient, before the epoch too. */
  lemma EraIsFloor(z: int)
    ensures Truncated(if z >= 0 then z else z - 146096, 146097) == z / 146097
  {
    if z < 0 {
      var e, r := z / 146097, z % 146097;
      assert -(z - 146096) == 146097 * -e + (146096 - r);
      assert (146096 - r) / 146097 == 0;
    }
  }

  /** The year of a day inside its 400-year era, day `t` of four-year cycle `k` of
      century `c`. */
  lemma YearOfCycle(c: int, k: int, t: int, doe: int)
    requires 0 <= c <= 3 && 0 <= k <= 24 && 0 <= t <= 1460 && (k == 24 ==> t < 1460)
    requires doe == 36524 * c + 1461 * k + t
    ensures var j := if t == 1460 then 3 else t / 365;
            (doe - doe / 1460 + doe / 36524 - doe / 146096) / 365 == 100 * c + 4 * k + j
  {
    var e := (24 * c + k + t) / 1460;
    assert doe == 1460 * (25 * c + k) + (24 * c + k + t);
    assert doe / 1460 == 25 * c + k + e;
    assert doe / 36524 == c && doe / 146096 == 0;
    assert doe - doe / 1460 + doe / 36524 - doe / 146096 == 365 * (100 * c + 4 * k) + (t - e);
  }

  predicate IsYearOfEra(doe: int, yoe: int, doy: int) {
    && 0 <= yoe <= 399
    && doe == 365 * yoe + yoe / 4 - yoe / 100 + doy
    && 0 <= doy <= 365
    && (doy == 365 ==> IsLeap(yoe + 1))
  }

  lemma YearOfEra(doe: int)
    requires 0 <= doe < 146097
    ensures var yoe := YearInEra(doe);
            IsYearOfEra(doe, yoe, doe - (365 * yoe + yoe / 4 - yoe / 100))
  {
    if doe < 146096 {
      var c, r := doe / 36524, doe % 36524;
      YearOfCycle(c, r / 1461, r % 1461, doe);
      CycleIsYearOfEra(c, r / 1461, r % 1461, doe);
    } else {
      assert YearInEra(146096) == 399;
    }
  }

  lemma CycleIsYearOfEra(c: int, k: int, t: int, doe: int)
    requires 0 <= c <= 3 && 0 <= k <= 24 && 0 <= t <= 1460 && (k == 24 ==> t < 1460)
    requires doe == 36524 * c + 1461 * k + t
    ensures var yoe := 100 * c + 4 * k + if t == 1460 then 3 else t / 365;
            IsYearOfEra(doe, yoe, doe - (365 * yoe + yoe / 4 - yoe / 100))
  {
    YearStart(c, k, if t == 1460 then 3 else t / 365);
  }

  lemma YearStart(c: int, k: int, j: int)
    requires 0 <= c <= 3 && 0 <= k <= 24 && 0 <= j <= 3
    ensures var yoe := 100 * c + 4 * k + j;
            yoe / 4 == 25 * c + k && yoe / 100 == c
    ensures j == 3 && k < 24 ==> IsLeap(100 * c + 4 * k + j + 1)
  {
  }

  /** The month and day of day `doy` of a year beginning in March. */
  predicate IsMarchDay(doy: int, mp: int, day: int) {
    && 0 <= mp <= 11
    && doy == (153 * mp + 2) / 5 + day - 1
    && 1 <= day <= MarchMonth(mp)
  }

  function MarchMonth(mp: int): int {
    if mp == 11 then 29 else DaysInMonth(0, if mp < 10 then mp + 3 else mp - 9)
  }

  lemma MonthOfYear(doy: int)
    requires 0 <= doy <= 365
    ensures var mp := (5 * doy + 2) / 153;
            IsMarchDay(doy, mp, doy - (153 * mp + 2) / 5 + 1)
    ensures (5 * doy + 2) / 153 == 11 ==> (doy - (153 * 11 + 2) / 5 + 1 == 29 <==> doy == 365)
  {
    var mp := (5 * doy + 2) / 153;
    assert mp == 0 || mp == 1 || mp == 2 || mp == 3 || mp == 4 || mp == 5
        || mp == 6 || mp == 7 || mp == 8 || mp == 9 || mp == 10 || mp == 11;
  }

  /** Days from the start of March year 0 to the start of March year `year`. */
  function MarchYear(year: int): int {
    365 * year + year / 4 - year / 100 + year / 400
  }

  function MarchDate(year: int, mp: int, day: int): Date {
    var month := if mp < 10 then mp + 3 else mp - 9;
    Date(if month <= 2 then year + 1 else year, month, day)
  }

  lemma MarchYearStart(year: int)
    ensures DaysBeforeYear(year + 1) == MarchYear(year) + 366
    ensures DaysBeforeYear(year) == MarchYear(year) + if IsLeap(year) then 0 else 1
  {
    MultiplesThrough(year);
    YearLength(year);
  }

  lemma MarchMonthStart(year: int, mp: int)
    requires 0 <= mp <= 9
    ensures DaysBeforeMonth(year, mp + 3) == 59 + (if IsLeap(year) then 1 else 0) + (153 * mp + 2) / 5
  {
    MonthStarts(year);
  }

  /** The day number of a date counted in years that begin in March. */
  lemma MarchDayNumber(year: int, mp: int, day: int)
    requires 0 <= mp <= 11
    ensures DayNumber(MarchDate(year, mp, day)) == MarchYear(year) + (153 * mp + 2) / 5 + day - 1 - 719468
  {
    MarchYearStart(year);
    if mp < 10 {
      MarchMonthStart(year, mp);
    } else {
      MonthStarts(year + 1);
    }
  }

  lemma EraShift(era: int, yoe: int)
    requires 0 <= yoe <= 399
    ensures MarchYear(yoe + era * 400) == era * 146097 + 365 * yoe + yoe / 4 - yoe / 100
  {
    var year := yoe + era * 400;
    assert year / 400 == era;
    assert year / 100 == yoe / 100 + era * 4;
    assert year / 4 == yoe / 4 + era * 100;
  }

  lemma EraKeepsLeap(era: int, year: int)
    ensures IsLeap(year + era * 400) == IsLeap(year)
  {
    SameRemainder400(era, year);
    SameRemainder100(era * 4, year);
    SameRemainder4(era * 100, year);
  }

  lemma SameRemainder400(k: int, year: int)
    ensures (year + k * 400) % 400 == year % 400
  {
  }

  lemma SameRemainder100(k: int, year: int)
    ensures (year + k * 100) % 100 == year % 100
  {
  }

  lemma SameRemainder4(k: int, year: int)
    ensures (year + k * 4) % 4 == year % 4
  {
  }

  lemma MarchDateIsDate(year: int, doy: int, mp: int, day: int)
    requires IsMarchDay(doy, mp, day)
    requires mp == 11 && day == 29 ==> IsLeap(year + 1)
    ensures IsDate(MarchDate(year, mp, day))
  {
  }

  /** The day inside an era falls in one of its years. */
  lemma DateInEraIsMarchDate(era: int, doe: int) returns (yoe: int, doy: int)
    requires 0 <= doe < 146097
    ensures IsYearOfEra(doe, yoe, doy) && DateInEra(era, doe) == MarchDateOf(yoe + era * 400, doy)
  {
    YearOfEra(doe);
    yoe := YearInEra(doe);
    doy := doe - (365 * yoe + yoe / 4 - yoe / 100);
  }

  /** Every day count, before the epoch too, becomes a real date with that number. */
  lemma CivilHasItsDayNumber(days: int)
    ensures IsDate(CivilFromDays(days))
    ensures DayNumber(CivilFromDays(days)) == days
  {
    var z := days + 719468;
    var era, doe := z / 146097, z % 146097;
    EraIsFloor(z);
    assert CivilFromDays(days) == DateInEra(era, z - era * 146097);
    assert doe == z - era * 146097;
    var yoe, doy := DateInEraIsMarchDate(era, doe);
    CivilInEra(era, doe, yoe, doy);
  }

  lemma CivilInEra(era: int, doe: int, yoe: int, doy: int)
    requires IsYearOfEra(doe, yoe, doy)
    ensures var date := MarchDateOf(yoe + era * 400, doy);
            IsDate(date) && DayNumber(date) == era * 146097 + doe - 719468
  {
    var leap := LeapAfter(era, yoe, doy);
    var year := yoe + era * 400;
    assert MarchYear(year) == era * 146097 + doe - doy by {
      EraShift(era, yoe);
    }
    DateOfMarchDay(year, doy, leap);
  }

  /** Day 365 of a March year exists only before a leap February. */
  lemma LeapAfter(era: int, yoe: int, doy: int) returns (leap: bool)
    requires 0 <= yoe && (doy == 365 ==> IsLeap(yoe + 1))
    ensures leap == IsLeap(yoe + era * 400 + 1) && (doy == 365 ==> leap)
  {
    EraKeepsLeap(era, yoe + 1);
    assert yoe + 1 + era * 400 == yoe + era * 400 + 1;
    leap := IsLeap(yoe + era * 400 + 1);
  }

  lemma DateOfMarchDay(year: int, doy: nat, leap: bool)
    requires doy <= 365 && leap == IsLeap(year + 1) && (doy == 365 ==> leap)
    ensures var date := MarchDateOf(year, doy);
            IsDate(date) && DayNumber(date) == MarchYear(year) + doy - 719468
  {
    var mp := (5 * doy + 2) / 153;
    var day := doy - (153 * mp + 2) / 5 + 1;
    MonthOfYear(doy);
    assert MarchDateOf(year, doy) == MarchDate(year, mp, day);
    MarchDateIsDate(year, doy, mp, day);
    MarchDayNumber(year, mp, day);
  }

  lemma {:induction false} LaterYear(y: int, z: int)
    requires y <= z
    ensures DaysBeforeYear(y) <= DaysBeforeYear(z)
    decreases z - y
  {
    if y < z {
      YearLength(y);
      LaterYear(y + 1, z);
    }
  }

  lemma InsideYear(date: Date)
    requires IsDate(date)
    ensures DaysBeforeYear(date.year) <= DayNumber(date) + 719528 < DaysBeforeYear(date.year + 1)
  {
    MonthStarts(date.year);
    YearLength(date.year);
    LaterMonth(date.year, 1, date.month);
    LaterMonth(date.year, date.month + 1, 13);
  }

  lemma {:induction false} LaterMonth(year: int, m: int, n: int)
    requires 1 <= m <= n <= 13
    ensures DaysBeforeMonth(year, m) <= DaysBeforeMonth(year, n)
    decreases n - m
  {
    if m < n {
      LaterMonth(year, m + 1, n);
    }
  }

  predicate Before(a: Date, b: Date) {
    || a.year < b.year
    || (a.year == b.year && (a.month < b.month || (a.month == b.month && a.day < b.day)))
  }

  /** Later dates have larger numbers, so a number names one date. */
  lemma DayNumberIncreases(a: Date, b: Date)
    requires IsDate(a) && IsDate(b) && Before(a, b)
    ensures DayNumber(a) < DayNumber(b)
  {
    if a.year < b.year {
      LaterYearIsLater(a, b);
    } else if a.month < b.month {
      InsideMonth(a);
      LaterMonth(a.year, a.month + 1, b.month);
    }
  }

  lemma LaterYearIsLater(a: Date, b: Date)
    requires IsDate(a) && IsDate(b) && a.year < b.year
    ensures DayNumber(a) < DayNumber(b)
  {
    InsideYear(a);
    InsideYear(b);
    LaterYear(a.year + 1, b.year);
  }

  lemma InsideMonth(date: Date)
    requires IsDate(date)
    ensures DayNumber(date) < DaysBeforeYear(date.year) + DaysBeforeMonth(date.year, date.month + 1) - 719528
  {
    assert DaysBeforeMonth(date.year, date.month + 1)
        == DaysBeforeMonth(date.year, date.month) + DaysInMonth(date.year, date.month);
  }

  /** The conversion finds the only date with that day number: it undoes day
      numbering on every date of the calendar. */
  lemma DayNumberRoundTrip(date: Date, days: int)
    requires IsDate(date)
    ensures DayNumber(date) == days <==> CivilFromDays(days) == date
  {
    var civil := CivilFromDays(days);
    CivilHasItsDayNumber(days);
    SameDayNumber(civil, date);
  }

  lemma SameDayNumber(a: Date, b: Date)
    requires IsDate(a) && IsDate(b)
    ensures DayNumber(a) == DayNumber(b) <==> a == b
  {
    if Before(a, b) {
      DayNumberIncreases(a, b);
    } else if Before(b, a) {
      DayNumberIncreases(b, a);
    }
  }

  /** Consecutive counts give consecutive dates. */
  lemma ConsecutiveCounts(days: int)
    ensures CivilFromDays(days + 1) == NextDay(CivilFromDays(days))
  {
    var today := CivilFromDays(days);
    CivilHasItsDayNumber(days);
    NextDayIsNextNumber(today);
    DayNumberRoundTrip(NextDay(today), days + 1);
  }

  // --------------------------------------------------------------- the stamp

  /** `{:04}` of a year: the sign takes one of the four places. */
  function YearText(year: int): string {
    if year >= 0 then Padded(year, 4) else "-" + Padded(-year, 3)
  }

  /** Two-digit fields, each behind its separator. */
  function Groups(separators: string, fields: seq<nat>): string
    requires |separators| == |fields|
  {
    if fields == [] then ""
    else
      var n := |fields| - 1;
      Groups(separators[..n], fields[..n]) + [separators[n]] + Padded(fields[n], 2)
  }

  const SEPARATORS: string := "-- ::"

  /** Month, day, hour, minute and second. */
  function FieldsOf(date: Date, s: nat): seq<nat>
    requires IsDate(date)
  {
    [date.month, date.day, s / 3600, s % 3600 / 60, s % 60]
  }

  /** The stamp of second `s` of a day. */
  function Stamp(date: Date, s: nat): string
    requires IsDate(date)
  {
    YearText(date.year) + (Groups(SEPARATORS, FieldsOf(date, s)) + " UTC")
  }

  function FormatUtc(seconds: int): string {
    CivilHasItsDayNumber(seconds / 86400);
    Stamp(CivilFromDays(seconds / 86400), seconds % 86400)
  }

  function ReadNumber(s: string): Option<nat> {
    if s != [] && AllDigits(s) then Some(Value(s)) else None
  }

  function ReadYear(s: string): Option<int> {
    var negative := s != [] && s[0] == '-';
    var digits := if negative then s[1..] else s;
    if digits == [] || !AllDigits(digits) then None
    else
      var value: int := Value(digits);
      Some(if negative then -value else value)
  }

  function ReadGroups(separators: string, s: string): (fields: Option<seq<nat>>)
    ensures fields.Some? ==> |fields.value| == |separators|
    decreases |separators|
  {
    if separators == [] then if s == [] then Some([]) else None
    else
      var n, m := |separators| - 1, |s| - 3;
      if m < 0 || s[m] != separators[n] then None
      else
        match (ReadGroups(separators[..n], s[..m]), ReadNumber(s[m + 1..]))
        case (Some(earlier), Some(field)) => Some(earlier + [field])
        case _ => None
  }

  /** Reads a stamp back: the year is what the last nineteen characters leave. */
  function ReadUtc(s: string): Option<int> {
    var n := |s|;
    if n < 19 || s[n - 4..] != " UTC" then None
    else
      match (ReadYear(s[..n - 19]), ReadGroups(SEPARATORS, s[n - 19..n - 4]))
      case (Some(year), Some(fields)) => ReadInstant(year, fields)
      case _ => None
  }

  function ReadInstant(year: int, fields: seq<nat>): Option<int>
    requires |fields| == |SEPARATORS|
  {
    var date := Date(year, fields[0], fields[1]);
    if IsDate(date) then
      Some(DayNumber(date) * 86400 + fields[2] * 3600 + fields[3] * 60 + fields[4])
    else None
  }

  lemma NumberRoundTrip(n: nat, width: nat)
    ensures ReadNumber(Padded(n, width)) == Some(n)
  {
    ValueOfPadded(n, width);
  }

  lemma YearRoundTrip(year: int)
    ensures ReadYear(YearText(year)) == Some(year)
  {
    if year >= 0 {
      NumberRoundTrip(year, 4);
      assert IsDigit(Padded(year, 4)[0]);
    } else {
      NumberRoundTrip(-year, 3);
      assert YearText(year)[1..] == Padded(-year, 3);
    }
  }

  lemma ReadLastGroup(separators: string, earlier: string, fields: seq<nat>, last: nat)
    requires |separators| > 0 && last < 100
    requires ReadGroups(separators[..|separators| - 1], earlier) == Some(fields)
    ensures ReadGroups(separators, earlier + [separators[|separators| - 1]] + Padded(last, 2)) == Some(fields + [last])
  {
    PaddedToTwo(last);
    NumberRoundTrip(last, 2);
    var s := earlier + [separators[|separators| - 1]] + Padded(last, 2);
    assert s[..|s| - 3] == earlier && s[|s| - 2..] == Padded(last, 2);
  }

  lemma {:induction false} GroupsRoundTrip(separators: string, fields: seq<nat>)
    requires |separators| == |fields| && forall k :: 0 <= k < |fields| ==> fields[k] < 100
    ensures |Groups(separators, fields)| == 3 * |fields|
    ensures ReadGroups(separators, Groups(separators, fields)) == Some(fields)
  {
    if fields != [] {
      var n := |fields| - 1;
      GroupsRoundTrip(separators[..n], fields[..n]);
      PaddedToTwo(fields[n]);
      ReadLastGroup(separators, Groups(separators[..n], fields[..n]), fields[..n], fields[n]);
      assert fields == fields[..n] + [fields[n]];
    }
  }

  lemma ClockFields(s: int)
    requires 0 <= s < 86400
    ensures s / 3600 * 3600 + s % 3600 / 60 * 60 + s % 60 == s
    ensures s / 3600 < 24 && s % 3600 / 60 < 60
  {
    assert s % 3600 % 60 == s % 60;
  }

  lemma InstantRoundTrip(date: Date, s: nat)
    requires IsDate(date) && s < 86400
    ensures ReadInstant(date.year, FieldsOf(date, s)) == Some(DayNumber(date) * 86400 + s)
    ensures forall k :: 0 <= k < 5 ==> FieldsOf(date, s)[k] < 100
  {
    ClockFields(s);
    var fields := FieldsOf(date, s);
    assert Date(date.year, fields[0], fields[1]) == date;
    assert fields[2] * 3600 + fields[3] * 60 + fields[4] == s;
  }

  lemma SplitStamp(year: string, groups: string)
    requires |groups| == 15
    ensures var s := year + (groups + " UTC");
            |s| == |year| + 19 && s[..|s| - 19] == year && s[|s| - 19..|s| - 4] == groups && s[|s| - 4..] == " UTC"
  {
  }

  lemma StampOfDateRoundTrip(date: Date, s: nat)
    requires IsDate(date) && s < 86400
    ensures ReadUtc(Stamp(date, s)) == Some(DayNumber(date) * 86400 + s)
  {
    InstantRoundTrip(date, s);
    GroupsRoundTrip(SEPARATORS, FieldsOf(date, s));
    YearRoundTrip(date.year);
    SplitStamp(YearText(date.year), Groups(SEPARATORS, FieldsOf(date, s)));
  }

  /** The printed fields determine the second, before the epoch and in negative
      years too. */
  lemma StampRoundTrip(seconds: int)
    ensures ReadUtc(FormatUtc(seconds)) == Some(seconds)
  {
    var days, s := seconds / 86400, seconds % 86400;
    CivilHasItsDayNumber(days);
    StampOfDateRoundTrip(CivilFromDays(days), s);
    assert days * 86400 + s == seconds;
  }
}

/** Day numbers and proleptic Gregorian dates. */
module Calendar {

  import opened Arith

  datatype Date = Date(year: int, month: int, day: int)

  predicate IsLeap(y: int) {
    (y % 4 == 0 && y % 100 != 0) || y % 400 == 0
  }

  function DaysInMonth(y: int, m: int): int {
    match m
    case 1 => 31
    case 2 => if IsLeap(y) then 29 else 28
    case 3 => 31
    case 4 => 30
    case 5 => 31
    case 6 => 30
    case 7 => 31
    case 8 => 31
    case 9 => 30
    case 10 => 31
    case 11 => 30
    case 12 => 31
    case _ => 0
  }

  predicate IsDate(t: Date) {
    1 <= t.month <= 12 && 1 <= t.day <= DaysInMonth(t.year, t.month)
  }

  /** Division that truncates toward zero. */
  function Quot(a: int, b: int): int
    requires b > 0
  {
    if a >= 0 then a / b else -((-a) / b)
  }

  const ERA_DAYS: int := 146097
  const EPOCH: int := 719468

  /** Days since 1970-01-01; years start in March, so the leap day is the last of its year. */
  function DaysFromCivil(t: Date): int
    requires IsDate(t)
  {
    var year := if t.month <= 2 then t.year - 1 else t.year;
    var era := Quot(if year >= 0 then year else year - 399, 400);
    var yearOfEra := year - era * 400;
    var dayOfYear := (153 * (t.month + if t.month > 2 then -3 else 9) + 2) / 5 + t.day - 1;
    var dayOfEra := yearOfEra * 365 + yearOfEra / 4 - yearOfEra / 100 + dayOfYear;
    era * ERA_DAYS + dayOfEra - EPOCH
  }

  function YearOfEra(dayOfEra: int): int {
    (dayOfEra - dayOfEra / 1460 + dayOfEra / 36524 - dayOfEra / 146096) / 365
  }

  function CivilFromDays(days: int): Date {
    var n := days + EPOCH;
    var era := Quot(if n >= 0 then n else n - 146096, ERA_DAYS);
    CivilIn(era, n - era * ERA_DAYS)
  }

  function CivilIn(era: int, dayOfEra: int): Date {
    var yearOfEra := YearOfEra(dayOfEra);
    var dayOfYear := dayOfEra - (365 * yearOfEra + yearOfEra / 4 - yearOfEra / 100);
    DateIn(yearOfEra + era * 400, dayOfYear)
  }

  /** The date of a day of a year that starts in March. */
  function DateIn(year: int, dayOfYear: int): Date {
    var march := (5 * dayOfYear + 2) / 153;
    var month := march + if march < 10 then 3 else -9;
    Date(year + if month <= 2 then 1 else 0, month, dayOfYear - (153 * march + 2) / 5 + 1)
  }

  // ---- floors --------------------------------------------------------------

  /** Shifting a negative numerator turns truncation into flooring. */
  lemma QuotFloors(n: int, d: int)
    requires d > 0
    ensures Quot(if n >= 0 then n else n - (d - 1), d) == n / d
  {
    if n < 0 {
      var m := -(n - (d - 1));
      DivMod(n, d);
      DivMod(m, d);
      var q, r := n / d, n % d;
      NegateTimes(q, d);
      DivUnique(m, d, -q, d - 1 - r);
    }
  }

  lemma NegateTimes(q: int, d: int)
    ensures (-q) * d == -(q * d)
  {
  }

  // ---- years that start in March -------------------------------------------

  /** Days from the March of year 0 to the March of year y. */
  function MarchStart(y: int): int {
    365 * y + y / 4 - y / 100 + y / 400
  }

  lemma EraSplits(y: int)
    ensures var era, yoe := y / 400, y % 400;
      && 0 <= yoe < 400 && y == 400 * era + yoe
      && MarchStart(y) == era * ERA_DAYS + yoe * 365 + yoe / 4 - yoe / 100
  {
    var era, yoe := y / 400, y % 400;
    DivMod(yoe, 4);
    DivMod(yoe, 100);
    DivUnique(y, 4, 100 * era + yoe / 4, yoe % 4);
    DivUnique(y, 100, 4 * era + yoe / 100, yoe % 100);
  }

  /** A year that starts in March ends with the February of the next. */
  lemma MarchYearLength(y: int)
    ensures MarchStart(y) == MarchStart(y - 1) + 365 + if IsLeap(y) then 1 else 0
  {
    StepDiv(y, 4);
    StepDiv(y, 100);
    StepDiv(y, 400);
    FourHundred(y);
  }

  lemma StepDiv(y: int, d: int)
    requires d > 1
    ensures y / d == (y - 1) / d + if y % d == 0 then 1 else 0
  {
    DivMod(y, d);
    if y % d == 0 {
      Minus(y / d, d);
      DivUnique(y - 1, d, y / d - 1, d - 1);
    } else {
      DivUnique(y - 1, d, y / d, y % d - 1);
    }
  }

  lemma Minus(q: int, d: int)
    ensures (q - 1) * d == q * d - d
  {
  }

  lemma FourHundred(y: int)
    ensures y % 400 == 0 ==> y % 100 == 0
    ensures y % 100 == 0 ==> y % 4 == 0
  {
    DivMod(y, 400);
    DivMod(y, 100);
    if y % 400 == 0 {
      DivUnique(y, 100, 4 * (y / 400), 0);
    }
    if y % 100 == 0 {
      DivUnique(y, 4, 25 * (y / 100), 0);
    }
  }

  function MarchYear(t: Date): int {
    if t.month <= 2 then t.year - 1 else t.year
  }

  function MarchMonth(m: int): int {
    if m > 2 then m - 3 else m + 9
  }

  /** Days before a month, counted from March. */
  function MonthStart(march: int): int {
    (153 * march + 2) / 5
  }

  lemma DaysInMarchYears(t: Date)
    requires IsDate(t)
    ensures DaysFromCivil(t) == MarchStart(MarchYear(t)) + MonthStart(MarchMonth(t.month)) + t.day - 1 - EPOCH
  {
    QuotFloors(MarchYear(t), 400);
    EraSplits(MarchYear(t));
    DivMod(MarchYear(t), 400);
  }

  // ---- counting days -------------------------------------------------------

  /** The calendar itself: the day after a date. */
  function NextDate(t: Date): Date
    requires IsDate(t)
  {
    if t.day < DaysInMonth(t.year, t.month) then t.(day := t.day + 1)
    else if t.month < 12 then Date(t.year, t.month + 1, 1)
    else Date(t.year + 1, 1, 1)
  }

  lemma MonthStarts()
    ensures MonthStart(0) == 0 && MonthStart(1) == 31 && MonthStart(2) == 61 && MonthStart(3) == 92
    ensures MonthStart(4) == 122 && MonthStart(5) == 153 && MonthStart(6) == 184 && MonthStart(7) == 214
    ensures MonthStart(8) == 245 && MonthStart(9) == 275 && MonthStart(10) == 306 && MonthStart(11) == 337
  {
  }

  lemma LastOfMonth(t: Date)
    requires IsDate(t) && t.day == DaysInMonth(t.year, t.month) && t.month != 2
    ensures MonthStart(MarchMonth(t.month)) + t.day
         == if t.month == 12 then 306 else MonthStart(MarchMonth(t.month + 1))
  {
    MonthStarts();
  }

  lemma NextMonth(t: Date)
    requires IsDate(t) && t.day == DaysInMonth(t.year, t.month)
    ensures IsDate(NextDate(t)) && DaysFromCivil(NextDate(t)) == DaysFromCivil(t) + 1
  {
    DaysInMarchYears(t);
    DaysInMarchYears(NextDate(t));
    if t.month == 2 {
      MarchYearLength(t.year);
    } else {
      LastOfMonth(t);
    }
  }

  /** The day number counts days: 1970-01-01 is day 0, and each next date is one more. */
  lemma DaysCount(t: Date)
    requires IsDate(t)
    ensures IsDate(NextDate(t)) && DaysFromCivil(NextDate(t)) == DaysFromCivil(t) + 1
    ensures DaysFromCivil(Date(1970, 1, 1)) == 0
  {
    DaysInMarchYears(Date(1970, 1, 1));
    if t.day == DaysInMonth(t.year, t.month) {
      NextMonth(t);
    } else {
      DaysInMarchYears(t);
      DaysInMarchYears(NextDate(t));
    }
  }

  // ---- the year of a day ---------------------------------------------------

  /** A day of an era: its century, its four-year cycle, its year in it and its day. The last
      day, 365, exists only in years that end with a leap day. */
  datatype EraDay = EraDay(century: int, cycle: int, year: int, day: int)

  predicate IsEraDay(e: EraDay) {
    && 0 <= e.century < 4 && 0 <= e.cycle < 25 && 0 <= e.year < 4 && 0 <= e.day <= 365
    && (e.day == 365 ==> e.year == 3 && (e.cycle < 24 || e.century == 3))
  }

  function DayOf(e: EraDay): int {
    36524 * e.century + 1461 * e.cycle + 365 * e.year + e.day
  }

  function YearOf(e: EraDay): int {
    100 * e.century + 4 * e.cycle + e.year
  }

  lemma YearStart(e: EraDay)
    requires IsEraDay(e)
    ensures var y := YearOf(e); 0 <= y < 400 && DayOf(e) == 365 * y + y / 4 - y / 100 + e.day
  {
    DivUnique(YearOf(e), 4, 25 * e.century + e.cycle, e.year);
    DivUnique(YearOf(e), 100, e.century, 4 * e.cycle + e.year);
  }

  /** The correction terms of the year formula cancel exactly. */
  lemma YearOfEraDay(e: EraDay)
    requires IsEraDay(e)
    ensures YearOfEra(DayOf(e)) == YearOf(e) && 0 <= DayOf(e) < ERA_DAYS
  {
    var n := DayOf(e);
    var last := if n == 146096 then 1 else 0;
    var rest := 24 * e.century + e.cycle + 365 * e.year + e.day;
    var wrap := if rest >= 1460 then 1 else 0;
    DivUnique(n, 1460, 25 * e.century + e.cycle + wrap, rest - 1460 * wrap);
    DivUnique(n, 36524, e.century + last, n - 36524 * (e.century + last));
    DivUnique(n, 146096, last, n - 146096 * last);
    DivUnique(n - n / 1460 + n / 36524 - n / 146096, 365, YearOf(e), e.day - wrap);
  }

  lemma EraDayOf(n: int) returns (e: EraDay)
    requires 0 <= n < ERA_DAYS
    ensures IsEraDay(e) && DayOf(e) == n
  {
    DivMod(n, 36524);
    var century := if n / 36524 < 4 then n / 36524 else 3;
    var r := n - 36524 * century;
    assert 0 <= r <= 36524 && (century < 3 ==> r < 36524);
    DivMod(r, 1461);
    var cycle := r / 1461;
    DivAtMost(r, 1461, 24);
    var q := r - 1461 * cycle;
    DivMod(q, 365);
    var year := if q / 365 < 4 then q / 365 else 3;
    DivAtMost(q, 365, 4);
    e := EraDay(century, cycle, year, q - 365 * year);
  }

  // ---- the month of a day --------------------------------------------------

  lemma MonthOfDay(march: int, day: int)
    requires 0 <= march < 12 && MonthStart(march) <= day < (if march == 11 then 366 else MonthStart(march + 1))
    ensures (5 * day + 2) / 153 == march
  {
    MonthStarts();
    DivUnique(5 * day + 2, 153, march, 5 * day + 2 - 153 * march);
  }

  lemma MarchOfDay(day: int) returns (march: int)
    requires 0 <= day <= 365
    ensures 0 <= march < 12 && MonthStart(march) <= day < (if march == 11 then 366 else MonthStart(march + 1))
  {
    MonthStarts();
    march := if day < 31 then 0 else if day < 61 then 1 else if day < 92 then 2 else if day < 122 then 3
      else if day < 153 then 4 else if day < 184 then 5 else if day < 214 then 6 else if day < 245 then 7
      else if day < 275 then 8 else if day < 306 then 9 else if day < 337 then 10 else 11;
  }

  /** Day 365 of a March year exists exactly when the next February has a leap day. */
  lemma LastDay(era: int, e: EraDay)
    requires IsEraDay(e.(day := 0))
    ensures IsLeap(400 * era + YearOf(e) + 1) <==> e.year == 3 && (e.cycle < 24 || e.century == 3)
  {
    var y := 400 * era + YearOf(e) + 1;
    var carry := if e.year == 3 then 1 else 0;
    DivUnique(y, 4, 100 * era + 25 * e.century + e.cycle + carry, (e.year + 1) % 4);
    var full := if e.year == 3 && e.cycle == 24 then 1 else 0;
    DivUnique(y, 100, 4 * era + e.century + full, 4 * e.cycle + e.year + 1 - 100 * full);
    var end := if full == 1 && e.century == 3 then 1 else 0;
    DivUnique(y, 400, era + end, YearOf(e) + 1 - 400 * end);
  }

  // ---- inverses ------------------------------------------------------------

  lemma CivilOfEra(era: int, day: int, days: int)
    requires 0 <= day < ERA_DAYS && days == era * ERA_DAYS + day - EPOCH
    ensures CivilFromDays(days) == CivilIn(era, day)
  {
    var n := days + EPOCH;
    QuotFloors(n, ERA_DAYS);
    DivUnique(n, ERA_DAYS, era, day);
    assert Quot(if n >= 0 then n else n - 146096, ERA_DAYS) == era;
    assert n - era * ERA_DAYS == day;
  }

  lemma CivilInEra(era: int, e: EraDay, day: int, year: int)
    requires IsEraDay(e) && day == DayOf(e) && year == 400 * era + YearOf(e)
    ensures CivilIn(era, day) == DateIn(year, e.day)
  {
    YearOfEraDay(e);
    YearStart(e);
  }

  lemma DayOfBounds(e: EraDay)
    requires IsEraDay(e)
    ensures 0 <= DayOf(e) < ERA_DAYS
  {
  }

  lemma CivilOfEraDay(n: int, era: int, e: EraDay, day: int, year: int)
    requires IsEraDay(e) && day == DayOf(e) && year == 400 * era + YearOf(e) && n == era * ERA_DAYS + day - EPOCH
    ensures CivilFromDays(n) == DateIn(year, e.day)
  {
    DayOfBounds(e);
    CivilInEra(era, e, day, year);
    CivilOfEra(era, day, n);
  }

  lemma DateInMarchYear(year: int, day: int)
    requires 0 <= day <= 365 && (day == 365 ==> IsLeap(year + 1))
    ensures var t := DateIn(year, day);
      IsDate(t) && MarchYear(t) == year && MonthStart(MarchMonth(t.month)) + t.day - 1 == day
  {
    var march := MarchOfDay(day);
    MonthOfDay(march, day);
    MonthStarts();
  }

  /** The day of the era on which a date falls. */
  lemma EraDayOn(year: int) returns (e: EraDay)
    ensures IsEraDay(e) && e.day == 0 && 400 * (year / 400) + YearOf(e) == year
  {
    var yoe := year % 400;
    DivMod(year, 400);
    DivMod(yoe, 100);
    DivAtMost(yoe, 100, 3);
    var r := yoe % 100;
    DivMod(r, 4);
    DivAtMost(r, 4, 24);
    e := EraDay(yoe / 100, r / 4, r % 4, 0);
  }

  lemma DaysOfEraDay(era: int, e: EraDay)
    requires IsEraDay(e) && (e.day == 365 ==> IsLeap(400 * era + YearOf(e) + 1))
    ensures var t := DateIn(400 * era + YearOf(e), e.day);
      IsDate(t) && DaysFromCivil(t) == era * ERA_DAYS + DayOf(e) - EPOCH
  {
    var year := 400 * era + YearOf(e);
    DateInMarchYear(year, e.day);
    DaysInMarchYears(DateIn(year, e.day));
    YearStart(e);
    DivUnique(year, 400, era, YearOf(e));
    EraSplits(year);
  }

  /** Every day has a valid date, whose number is the day. */
  lemma CivilInverse(n: int)
    ensures IsDate(CivilFromDays(n)) && DaysFromCivil(CivilFromDays(n)) == n
  {
    var m := n + EPOCH;
    var era := m / ERA_DAYS;
    DivMod(m, ERA_DAYS);
    var e := EraDayOf(m % ERA_DAYS);
    CivilOfEraDay(n, era, e, DayOf(e), 400 * era + YearOf(e));
    LastDay(era, e);
    DaysOfEraDay(era, e);
  }

  lemma SplitDate(t: Date)
    requires IsDate(t)
    ensures var day := MonthStart(MarchMonth(t.month)) + t.day - 1;
      && 0 <= day <= 365 && (day == 365 ==> IsLeap(MarchYear(t) + 1))
      && DateIn(MarchYear(t), day) == t
  {
    var day := MonthStart(MarchMonth(t.month)) + t.day - 1;
    MonthStarts();
    MonthOfDay(MarchMonth(t.month), day);
  }

  /** Every valid date is the date of its number. */
  lemma DaysInverse(t: Date)
    requires IsDate(t)
    ensures CivilFromDays(DaysFromCivil(t)) == t
  {
    SplitDate(t);
    var year := MarchYear(t);
    var start := EraDayOn(year);
    var e := start.(day := MonthStart(MarchMonth(t.month)) + t.day - 1);
    var era := year / 400;
    LastDay(era, start);
    DaysOfEraDay(era, e);
    CivilOfEraDay(DaysFromCivil(t), era, e, DayOf(e), year);
  }

  // ---- order ---------------------------------------------------------------

  predicate Before(a: Date, b: Date) {
    a.year < b.year || (a.year == b.year && (a.month < b.month || (a.month == b.month && a.day < b.day)))
  }

  lemma {:induction false} MarchStartsAscend(a: int, b: int)
    requires a <= b
    ensures MarchStart(a) <= MarchStart(b)
    decreases b - a
  {
    if a < b {
      MarchStartsAscend(a, b - 1);
      MarchYearLength(b);
    }
  }

  /** A year runs from its January to the next. */
  lemma WithinYear(t: Date)
    requires IsDate(t)
    ensures MarchStart(t.year - 1) + 306 - EPOCH <= DaysFromCivil(t) < MarchStart(t.year) + 306 - EPOCH
  {
    DaysInMarchYears(t);
    MonthStarts();
    MarchYearLength(t.year);
  }

  lemma SameYear(a: Date, b: Date)
    requires IsDate(a) && IsDate(b) && a.year == b.year && a.month < b.month
    ensures DaysFromCivil(a) < DaysFromCivil(b)
  {
    DaysInMarchYears(a);
    DaysInMarchYears(b);
    MonthStarts();
    if a.month > 2 || b.month <= 2 {
      LaterMonth(a, b);
    } else {
      MarchYearLength(a.year);
    }
  }

  lemma LaterMonth(a: Date, b: Date)
    requires IsDate(a) && IsDate(b) && a.year == b.year && a.month < b.month && (a.month > 2 || b.month <= 2)
    ensures MonthStart(MarchMonth(a.month)) + a.day <= MonthStart(MarchMonth(b.month))
  {
    MonthStarts();
  }

  /** Later dates have larger numbers. */
  lemma DaysMonotone(a: Date, b: Date)
    requires IsDate(a) && IsDate(b)
    ensures DaysFromCivil(a) < DaysFromCivil(b) <==> Before(a, b)
  {
    if a.year < b.year {
      YearsAscend(a, b);
    } else if b.year < a.year {
      YearsAscend(b, a);
    } else if a.month < b.month {
      SameYear(a, b);
    } else if b.month < a.month {
      SameYear(b, a);
    } else {
      DaysInMarchYears(a);
      DaysInMarchYears(b);
    }
  }

  lemma YearsAscend(a: Date, b: Date)
    requires IsDate(a) && IsDate(b) && a.year < b.year
    ensures DaysFromCivil(a) < DaysFromCivil(b)
  {
    WithinYear(a);
    WithinYear(b);
    MarchStartsAscend(a.year, b.year - 1);
  }
}

/** Days since 1970-01-01 as Gregorian dates, proved to step through the calendar day by day. */
module Calendar {

  datatype Date = Date(year: int, month: nat, day: nat)

  // ---- The Gregorian calendar ----

  predicate IsLeap(year: int)
  {
    year % 4 == 0 && (year % 100 != 0 || year % 400 == 0)
  }

  function DaysInMonth(year: int, month: nat): nat
  {
    if month == 2 then (if IsLeap(year) then 29 else 28)
    else if month == 4 || month == 6 || month == 9 || month == 11 then 30
    else 31
  }

  predicate IsDate(t: Date)
  {
    1 <= t.month <= 12 && 1 <= t.day <= DaysInMonth(t.year, t.month)
  }

  function NextDay(t: Date): Date
  {
    if t.day < DaysInMonth(t.year, t.month) then Date(t.year, t.month, t.day + 1)
    else if t.month < 12 then Date(t.year, t.month + 1, 1)
    else Date(t.year + 1, 1, 1)
  }

  // ---- The program ----

  /** Division that drops the fraction, as machine integers do. */
  function TruncDiv(a: int, b: int): int
    requires b > 0
  {
    if a >= 0 then a / b else -(-a / b)
  }

  function EraOf(z: int): int
  {
    TruncDiv(if z >= 0 then z else z - 146096, 146097)
  }

  function YearOfEra(doe: nat): nat
    requires doe <= 146096
  {
    (doe - doe / 1460 + doe / 36524 - doe / 146096) / 365
  }

  /** The first day of a month, counted from March, in a year that starts in March. */
  function MonthStart(mp: nat): nat
  {
    (153 * mp + 2) / 5
  }

  /** The first day of a year of an era, for years that start in March. */
  function YearStart(yoe: nat): nat
  {
    365 * yoe + yoe / 4 - yoe / 100
  }

  function FromParts(era: int, yoe: nat, doy: nat): Date
    requires doy <= 366
  {
    var mp := (5 * doy + 2) / 153;
    var m := if mp < 10 then mp + 3 else mp - 9;
    MonthOfDay(doy);
    Date(yoe + era * 400 + (if m <= 2 then 1 else 0), m, doy - MonthStart(mp) + 1)
  }

  /** The date of a day of an era. */
  function CivilInEra(era: int, doe: nat): Date
    requires doe <= 146096
  {
    var yoe := YearOfEra(doe);
    YearOfEraBounds(doe);
    FromParts(era, yoe, doe - YearStart(yoe))
  }

  /** The date of a day number. */
  function CivilFromDays(days: int): Date
  {
    var z := days + 719468;
    EraBounds(z);
    CivilInEra(EraOf(z), z - EraOf(z) * 146097)
  }

  lemma EraBounds(z: int)
    ensures 0 <= z - EraOf(z) * 146097 <= 146096
  {
  }

  lemma MonthOfDay(doy: nat)
    requires doy <= 366
    ensures var mp := (5 * doy + 2) / 153; mp <= 11 && MonthStart(mp) <= doy < MonthStart(mp + 1)
  {
  }

  // ---- Years of an era ----

  /** A day of an era by century, leap cycle, year and day. */
  lemma SplitEra(doe: nat) returns (c: nat, q: nat, r: nat, doy: nat)
    requires doe <= 146096
    ensures c <= 3 && q <= 24 && r <= 3 && doe == c * 36524 + q * 1461 + r * 365 + doy
    ensures doy <= 365 && (doy == 365 ==> r == 3 && (q < 24 || c == 3))
  {
    c := if doe / 36524 > 3 then 3 else doe / 36524;
    var rest := doe - c * 36524;
    q := rest / 1461;
    var left := rest - q * 1461;
    r := if left / 365 > 3 then 3 else left / 365;
    doy := left - r * 365;
  }

  lemma YearOfSplit(c: nat, q: nat, r: nat, doy: nat)
    requires c <= 3 && q <= 24 && r <= 3 && doy <= 365 && (doy == 365 ==> r == 3 && (q < 24 || c == 3))
    ensures var doe := c * 36524 + q * 1461 + r * 365 + doy;
      doe <= 146096 && YearOfEra(doe) == 100 * c + 4 * q + r
    ensures YearStart(100 * c + 4 * q + r) + doy == c * 36524 + q * 1461 + r * 365 + doy
  {
    var doe := c * 36524 + q * 1461 + r * 365 + doy;
    var y := 100 * c + 4 * q + r;
    assert y / 100 == c && y / 4 == 25 * c + q;
    var e := if 24 * c + q + 365 * r + doy >= 1460 then 1 else 0;
    assert doe / 1460 == 25 * c + q + e;
    var last := if doe == 146096 then 1 else 0;
    assert doe / 36524 == c + last && doe / 146096 == last;
    assert doe - doe / 1460 + doe / 36524 - doe / 146096 == 365 * y + (doy - e);
  }

  lemma YearOfEraBounds(doe: nat)
    requires doe <= 146096
    ensures YearOfEra(doe) <= 399 && YearStart(YearOfEra(doe)) <= doe <= YearStart(YearOfEra(doe)) + 365
  {
    var c, q, r, doy := SplitEra(doe);
    YearOfSplit(c, q, r, doy);
  }

  // ---- Stepping through the calendar ----

  predicate InYear(c: nat, q: nat, r: nat, doy: nat)
  {
    c <= 3 && q <= 24 && r <= 3 && doy <= 365 && (doy == 365 ==> r == 3 && (q < 24 || c == 3))
  }

  function DayOf(era: int, c: nat, q: nat, r: nat, doy: nat): int
  {
    era * 146097 + (c * 36524 + q * 1461 + r * 365 + doy) - 719468
  }

  lemma EraUnique(era: int, doe: nat)
    requires doe <= 146096
    ensures EraOf(era * 146097 + doe) == era
  {
  }

  lemma SplitIs(z: int, era: int, doe: nat)
    requires z == era * 146097 + doe && doe <= 146096
    ensures EraOf(z) == era && z - EraOf(z) * 146097 == doe
  {
    EraUnique(era, doe);
  }

  lemma CivilByEra(days: int, era: int, doe: nat)
    requires days + 719468 == era * 146097 + doe && doe <= 146096
    ensures CivilFromDays(days) == CivilInEra(era, doe)
  {
    SplitIs(days + 719468, era, doe);
  }

  lemma CivilOfSplit(era: int, c: nat, q: nat, r: nat, doy: nat)
    requires InYear(c, q, r, doy)
    ensures CivilFromDays(DayOf(era, c, q, r, doy)) == FromParts(era, 100 * c + 4 * q + r, doy)
  {
    var doe := c * 36524 + q * 1461 + r * 365 + doy;
    YearOfSplit(c, q, r, doy);
    CivilByEra(DayOf(era, c, q, r, doy), era, doe);
    InEraOfYear(era, doe, 100 * c + 4 * q + r, doy);
  }

  lemma InEraOfYear(era: int, doe: nat, yoe: nat, doy: nat)
    requires doe <= 146096 && YearOfEra(doe) == yoe && YearStart(yoe) + doy == doe && doy <= 366
    ensures CivilInEra(era, doe) == FromParts(era, yoe, doy)
  {
  }

  /** Every day number has its place in an era, a century, a leap cycle and a year. */
  lemma Place(days: int) returns (era: int, c: nat, q: nat, r: nat, doy: nat)
    ensures InYear(c, q, r, doy) && days == DayOf(era, c, q, r, doy)
    ensures CivilFromDays(days) == FromParts(era, 100 * c + 4 * q + r, doy)
  {
    var z := days + 719468;
    EraBounds(z);
    era := EraOf(z);
    c, q, r, doy := SplitEra(z - era * 146097);
    CivilOfSplit(era, c, q, r, doy);
  }

  lemma Remainder4(k: int, r: nat)
    requires r < 4
    ensures (4 * k + r) % 4 == r
  {
  }

  lemma Remainder100(k: int, r: nat)
    requires r < 100
    ensures (100 * k + r) % 100 == r
  {
  }

  lemma Remainder400(k: int, r: nat)
    requires r < 400
    ensures (400 * k + r) % 400 == r
  {
  }

  /** The year that starts in March holds a leap day just when the calendar year it ends in is leap. */
  lemma LeapDay(era: int, c: nat, q: nat, r: nat)
    requires c <= 3 && q <= 24 && r <= 3
    ensures IsLeap(100 * c + 4 * q + r + era * 400 + 1) <==> r == 3 && (q < 24 || c == 3)
  {
    if r < 3 {
      Remainder4(25 * c + q + 100 * era, r + 1);
    } else {
      Remainder4(25 * c + q + 100 * era + 1, 0);
      if q < 24 {
        Remainder100(c + 4 * era, 4 * q + 4);
      } else {
        Remainder100(c + 4 * era + 1, 0);
        if c < 3 { Remainder400(era, 100 * c + 100); } else { Remainder400(era + 1, 0); }
      }
    }
  }

  function MonthOf(mp: nat): nat
  {
    if mp < 10 then mp + 3 else mp - 9
  }

  /** Months other than February are as long as the distance between their starts. */
  lemma MonthLength(mp: nat, year: int)
    requires mp <= 10
    ensures MonthStart(mp + 1) - MonthStart(mp) == DaysInMonth(year, MonthOf(mp))
  {
  }

  lemma PartsAreDate(era: int, c: nat, q: nat, r: nat, doy: nat)
    requires InYear(c, q, r, doy)
    ensures IsDate(FromParts(era, 100 * c + 4 * q + r, doy))
  {
    var t := FromParts(era, 100 * c + 4 * q + r, doy);
    var mp := (5 * doy + 2) / 153;
    MonthOfDay(doy);
    LeapDay(era, c, q, r);
    if mp <= 10 { MonthLength(mp, t.year); }
  }

  lemma NextInYear(era: int, c: nat, q: nat, r: nat, doy: nat)
    requires InYear(c, q, r, doy) && InYear(c, q, r, doy + 1)
    ensures FromParts(era, 100 * c + 4 * q + r, doy + 1) == NextDay(FromParts(era, 100 * c + 4 * q + r, doy))
  {
    var t := FromParts(era, 100 * c + 4 * q + r, doy);
    var mp, mp' := (5 * doy + 2) / 153, (5 * (doy + 1) + 2) / 153;
    MonthOfDay(doy);
    MonthOfDay(doy + 1);
    LeapDay(era, c, q, r);
    assert mp' == mp || mp' == mp + 1;
    if mp <= 10 { MonthLength(mp, t.year); }
  }

  /** After the last day of February comes the first of March. */
  lemma NextYear(era: int, c: nat, q: nat, r: nat, doy: nat)
    requires InYear(c, q, r, doy) && !InYear(c, q, r, doy + 1)
    ensures
      var y := 100 * c + 4 * q + r;
      doy >= 364 && NextDay(FromParts(era, y, doy)) == Date(y + era * 400 + 1, 3, 1)
  {
    LeapDay(era, c, q, r);
  }

  lemma FirstOfMarch(days: int, era: int, c: nat, q: nat, r: nat)
    requires c <= 3 && q <= 24 && r <= 3 && days == DayOf(era, c, q, r, 0)
    ensures CivilFromDays(days) == Date(100 * c + 4 * q + r + era * 400, 3, 1)
  {
    CivilOfSplit(era, c, q, r, 0);
  }

  /** The day after the last of a year is the first of March of the next. */
  lemma RollOver(era: int, c: nat, q: nat, r: nat, doy: nat)
    requires InYear(c, q, r, doy) && !InYear(c, q, r, doy + 1) && doy >= 364
    ensures CivilFromDays(DayOf(era, c, q, r, doy) + 1) == Date(100 * c + 4 * q + r + era * 400 + 1, 3, 1)
  {
    var days := DayOf(era, c, q, r, doy) + 1;
    if r < 3 {
      FirstOfMarch(days, era, c, q, r + 1);
    } else if q < 24 {
      FirstOfMarch(days, era, c, q + 1, 0);
    } else if c < 3 {
      FirstOfMarch(days, era, c + 1, 0, 0);
    } else {
      FirstOfMarch(days, era + 1, 0, 0, 0);
    }
  }

  lemma CivilIsDate(days: int)
    ensures IsDate(CivilFromDays(days))
  {
    var era, c, q, r, doy := Place(days);
    PartsAreDate(era, c, q, r, doy);
  }

  lemma FollowedByNext(days: int, era: int, c: nat, q: nat, r: nat, doy: nat)
    requires InYear(c, q, r, doy) && days == DayOf(era, c, q, r, doy)
    ensures CivilFromDays(days + 1) == NextDay(FromParts(era, 100 * c + 4 * q + r, doy))
  {
    if InYear(c, q, r, doy + 1) {
      SameYear(days + 1, era, c, q, r, doy + 1);
      NextInYear(era, c, q, r, doy);
    } else {
      NextYear(era, c, q, r, doy);
      RollOver(era, c, q, r, doy);
    }
  }

  lemma SameYear(days: int, era: int, c: nat, q: nat, r: nat, doy: nat)
    requires InYear(c, q, r, doy) && days == DayOf(era, c, q, r, doy)
    ensures CivilFromDays(days) == FromParts(era, 100 * c + 4 * q + r, doy)
  {
    CivilOfSplit(era, c, q, r, doy);
  }

  lemma Epoch()
    ensures CivilFromDays(0) == Date(1970, 1, 1)
  {
    CivilOfSplit(4, 3, 17, 1, 306);
  }

  /**
    The calendar is right on every day, before and after 1970: day 0 is the first of January
    1970, every day has a valid date, and each day's date is followed by the next day's.
   */
  lemma CalendarIsGregorian(days: int)
    ensures CivilFromDays(0) == Date(1970, 1, 1)
    ensures IsDate(CivilFromDays(days))
    ensures CivilFromDays(days + 1) == NextDay(CivilFromDays(days))
  {
    Epoch();
    CivilIsDate(days);
    var era, c, q, r, doy := Place(days);
    FollowedByNext(days, era, c, q, r, doy);
  }

  // ---- Order ----

  predicate Before(s: Date, t: Date)
  {
    s.year < t.year || (s.year == t.year && (s.month < t.month || (s.month == t.month && s.day < t.day)))
  }

  /** Dates that follow one another from day to day increase. */
  lemma {:induction false} StepsIncrease(dates: int -> Date, a: int, b: int)
    requires forall n :: IsDate(dates(n))
    requires forall n :: dates(n + 1) == NextDay(dates(n))
    requires a < b
    ensures Before(dates(a), dates(b))
    decreases b - a
  {
    assert dates(b - 1 + 1) == NextDay(dates(b - 1));
    if a < b - 1 {
      StepsIncrease(dates, a, b - 1);
    }
  }

  /** Later days have later dates, so no two days share one. */
  lemma DatesIncrease(a: int, b: int)
    requires a < b
    ensures Before(CivilFromDays(a), CivilFromDays(b))
  {
    forall n ensures IsDate(CivilFromDays(n)) && CivilFromDays(n + 1) == NextDay(CivilFromDays(n)) {
      CalendarIsGregorian(n);
    }
    StepsIncrease(CivilFromDays, a, b);
  }

  // ---- Back from dates to days ----

  /** The days of all years before the March of `y`, counted from the March of year 0. */
  function MarchOf(y: int): int
  {
    365 * y + y / 4 - y / 100 + y / 400
  }

  /** The year that starts in March, and the month counted from March. */
  function MarchYear(t: Date): int
  {
    if t.month <= 2 then t.year - 1 else t.year
  }

  function MarchMonth(t: Date): nat
    requires IsDate(t)
  {
    if t.month <= 2 then t.month + 9 else t.month - 3
  }

  /** The day number of a date: whole years, their leap days, and the days since March. */
  function DayNumber(t: Date): int
    requires IsDate(t)
  {
    MarchOf(MarchYear(t)) + MonthStart(MarchMonth(t)) + t.day - 1 - 719468
  }

  lemma MarchOfSplit(era: int, c: nat, q: nat, r: nat)
    requires c <= 3 && q <= 24 && r <= 3
    ensures MarchOf(era * 400 + 100 * c + 4 * q + r) == era * 146097 + c * 36524 + q * 1461 + r * 365
  {
    var y := era * 400 + 100 * c + 4 * q + r;
    assert y / 4 == 100 * era + 25 * c + q;
    assert y / 100 == 4 * era + c;
    assert y / 400 == era;
  }

  lemma PartsOf(era: int, yoe: nat, doy: nat)
    requires doy <= 365 && IsDate(FromParts(era, yoe, doy))
    ensures
      var t := FromParts(era, yoe, doy);
      MarchYear(t) == era * 400 + yoe && MonthStart(MarchMonth(t)) + t.day - 1 == doy
  {
    MonthOfDay(doy);
  }

  /** The day number undoes the conversion. */
  lemma DayNumberOfCivil(days: int)
    ensures IsDate(CivilFromDays(days)) && DayNumber(CivilFromDays(days)) == days
  {
    var era, c, q, r, doy := Place(days);
    PartsAreDate(era, c, q, r, doy);
    PartsOf(era, 100 * c + 4 * q + r, doy);
    MarchOfSplit(era, c, q, r);
  }

  lemma SplitYear(y: int) returns (era: int, c: nat, q: nat, r: nat)
    ensures c <= 3 && q <= 24 && r <= 3 && y == era * 400 + 100 * c + 4 * q + r
  {
    era := y / 400;
    var yoe := y - era * 400;
    c := yoe / 100;
    var left := yoe - c * 100;
    q := left / 4;
    r := left - q * 4;
  }

  /** A valid date is a day of its year, counted from March. */
  lemma DateInYear(t: Date, era: int, c: nat, q: nat, r: nat) returns (doy: nat)
    requires IsDate(t) && c <= 3 && q <= 24 && r <= 3 && MarchYear(t) == era * 400 + 100 * c + 4 * q + r
    ensures InYear(c, q, r, doy) && doy == MonthStart(MarchMonth(t)) + t.day - 1
    ensures FromParts(era, 100 * c + 4 * q + r, doy) == t
  {
    var mp := MarchMonth(t);
    doy := MonthStart(mp) + t.day - 1;
    LeapDay(era, c, q, r);
    if mp <= 10 { MonthLength(mp, t.year); }
    DayInMonth(doy, mp);
  }

  /** Every valid date is the date of its day number. */
  lemma CivilOfDayNumber(t: Date)
    requires IsDate(t)
    ensures CivilFromDays(DayNumber(t)) == t
  {
    var era, c, q, r := SplitYear(MarchYear(t));
    var doy := DateInYear(t, era, c, q, r);
    MarchOfSplit(era, c, q, r);
    assert DayNumber(t) == DayOf(era, c, q, r, doy);
    CivilOfSplit(era, c, q, r, doy);
  }

  lemma DayInMonth(doy: nat, mp: nat)
    requires mp <= 11 && MonthStart(mp) <= doy < MonthStart(mp + 1)
    ensures (5 * doy + 2) / 153 == mp
  {
  }

  // ---- The variant of the traffic counter ----

  const U32: nat := 0x1_0000_0000

  /** The same steps from a Unix time, with the year cut to 32 bits. */
  function YmdFromUnix(ts: nat): Date
  {
    var t := CivilFromDays(ts / 86400);
    Date(t.year % U32, t.month, t.day)
  }

  lemma YearFrom1970(days: nat)
    ensures CivilFromDays(days).year >= 1970
  {
    if days > 0 { DatesIncrease(0, days); }
    Epoch();
  }

  lemma CutYear(t: Date)
    requires t.year >= 0
    ensures Date(t.year % U32, t.month, t.day) == t <==> t.year < U32
  {
  }

  /** It gives the date of its day just as long as the year fits. */
  lemma YmdAgrees(ts: nat)
    ensures YmdFromUnix(ts) == CivilFromDays(ts / 86400) <==> CivilFromDays(ts / 86400).year < U32
  {
    YearFrom1970(ts / 86400);
    CutYear(CivilFromDays(ts / 86400));
  }
}

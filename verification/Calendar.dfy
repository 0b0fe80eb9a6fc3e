/** The file creation date: civil-from-days arithmetic against the Gregorian calendar (copc-writer/src/metadata.rs). */
module Calendar {
  import opened Core

  const INT64_MIN: int := -0x8000_0000_0000_0000
  const INT64_MAX: int := 0x7FFF_FFFF_FFFF_FFFF

  const CUMULATIVE_DAYS: seq<int> := [0, 31, 59, 90, 120, 151, 181, 212, 243, 273, 304, 334]

  function YearOfEra(doe: int): int {
    (doe - doe / 1460 + doe / 36524 - doe / 146096) / 365
  }

  function DayFromMarch(doe: int): int {
    var yoe := YearOfEra(doe);
    doe - (365 * yoe + yoe / 4 - yoe / 100)
  }

  predicate Leap(year: int) {
    (year % 4 == 0 && year % 100 != 0) || year % 400 == 0
  }

  /** Month and day of the month, counted from the first of March. */
  function MonthDay(fromMarch: int): (int, int) {
    var mp := (5 * fromMarch + 2) / 153;
    (if mp < 10 then mp + 3 else mp - 9, fromMarch - (153 * mp + 2) / 5 + 1)
  }

  /** `utc_date_from_unix_days`: (day of year, year), both cut to 16 bits. */
  function UtcDateFromUnixDays(days: int): (date: (uint16, uint16))
    requires INT64_MIN <= days && days + 719468 <= INT64_MAX
  {
    var z := days + 719468;
    var era := z / 146097;
    var doe := z % 146097;
    var y := YearOfEra(doe) + era * 400;
    EraDayInYear(doe);
    var (month, day) := MonthDay(DayFromMarch(doe));
    MonthsOf(DayFromMarch(doe));
    var year := if month <= 2 then y + 1 else y;
    var dayOfYear := CUMULATIVE_DAYS[month - 1] + day + (if Leap(year) && month > 2 then 1 else 0);
    (dayOfYear, year % 0x1_0000)
  }

  // The era arithmetic ------------------------------------------------------

  /** A day of a 400-year era split into century, four-year cycle, year and day, all counted from March. */
  ghost predicate EraSplit(doe: int, c: int, q: int, t: int, u: int) {
    && doe == 36524 * c + 1461 * q + 365 * t + u
    && 0 <= c <= 3 && 0 <= q <= 24 && 0 <= t <= 3 && 0 <= u
    && (if t < 3 then u <= 364 else if q < 24 || c == 3 then u <= 365 else u <= 364)
  }

  lemma SplitEra(doe: int) returns (c: int, q: int, t: int, u: int)
    requires 0 <= doe < 146097
    ensures EraSplit(doe, c, q, t, u)
  {
    c := if doe / 36524 > 3 then 3 else doe / 36524;
    var r := doe - 36524 * c;
    q := r / 1461;
    var s := r - 1461 * q;
    t := if s / 365 > 3 then 3 else s / 365;
    u := s - 365 * t;
  }

  lemma CenturyTerm(doe: int, c: int, q: int, t: int, u: int)
    requires EraSplit(doe, c, q, t, u)
    ensures 0 <= doe <= 146096 && doe / 36524 - doe / 146096 == c
  {
    var r := 1461 * q + 365 * t + u;
    assert r <= 36524 && (c < 3 ==> r < 36524);
  }

  lemma FourYearTerm(doe: int, c: int, q: int, t: int, u: int)
    requires EraSplit(doe, c, q, t, u)
    ensures var w := 24 * c + q + 365 * t + u;
      0 <= w < 2920 && doe / 1460 == 25 * c + q + (if w >= 1460 then 1 else 0)
  {
    var w := 24 * c + q + 365 * t + u;
    assert doe == 1460 * (25 * c + q) + w;
  }

  lemma YearTerm(y: int, rest: int)
    requires 0 <= rest < 365
    ensures (365 * y + rest) / 365 == y
  {
  }

  lemma YearParts(c: int, q: int, t: int)
    requires 0 <= c <= 3 && 0 <= q <= 24 && 0 <= t <= 3
    ensures var y := 100 * c + 4 * q + t; y / 4 == 25 * c + q && y / 100 == c
  {
  }

  /** The closed formula finds the year of the split, and what is left is its day. */
  lemma YearOfEraExact(doe: int, c: int, q: int, t: int, u: int)
    requires EraSplit(doe, c, q, t, u)
    ensures YearOfEra(doe) == 100 * c + 4 * q + t && DayFromMarch(doe) == u
  {
    CenturyTerm(doe, c, q, t, u);
    FourYearTerm(doe, c, q, t, u);
    YearParts(c, q, t);
    var b := if 24 * c + q + 365 * t + u >= 1460 then 1 else 0;
    var y := 100 * c + 4 * q + t;
    assert doe - doe / 1460 + doe / 36524 - doe / 146096 == 365 * y + (u - b);
    YearTerm(y, u - b);
  }

  lemma EraDayInYear(doe: int)
    requires 0 <= doe < 146097
    ensures 0 <= DayFromMarch(doe) <= 365 && 0 <= YearOfEra(doe) <= 399
  {
    hide YearOfEra, DayFromMarch;
    var c, q, t, u := SplitEra(doe);
    YearOfEraExact(doe, c, q, t, u);
  }

  /** The month table turns a day from March into a day of the year. */
  lemma MonthsOf(fromMarch: int)
    requires 0 <= fromMarch <= 365
    ensures var (month, day) := MonthDay(fromMarch);
      && 1 <= month <= 12 && 1 <= day <= 31
      && (month <= 2 <==> fromMarch >= 306)
      && CUMULATIVE_DAYS[month - 1] + day == (if fromMarch >= 306 then fromMarch - 305 else fromMarch + 60)
  {
    var mp := (5 * fromMarch + 2) / 153;
    assert 0 <= mp <= 11;
    if mp == 0 || mp == 1 || mp == 2 || mp == 3 {
    } else if mp == 4 || mp == 5 || mp == 6 || mp == 7 {
    } else {
    }
  }

  // The Gregorian calendar --------------------------------------------------

  function YearDays(year: int): int {
    if Leap(year) then 366 else 365
  }

  /** The day number of the first of January, counted year by year from 1970-01-01. */
  ghost function JanuaryFirst(year: nat): int
    requires year >= 1969
  {
    if year == 1969 then -365 else JanuaryFirst(year - 1) + YearDays(year - 1)
  }

  /** Day `doy` of `year` is `days` days after the first of January 1970. */
  ghost predicate IsDate(days: int, doy: int, year: nat) {
    year >= 1969 && 1 <= doy <= YearDays(year) && JanuaryFirst(year) + doy - 1 == days
  }

  /** The first of March in closed form. */
  function MarchFirst(year: int): int {
    365 * year + year / 4 - year / 100 + year / 400 - 719468
  }

  lemma QuarterStep(year: int)
    ensures (year + 1) / 4 == year / 4 + (if (year + 1) % 4 == 0 then 1 else 0)
    ensures (year + 1) / 100 == year / 100 + (if (year + 1) % 100 == 0 then 1 else 0)
    ensures (year + 1) / 400 == year / 400 + (if (year + 1) % 400 == 0 then 1 else 0)
  {
  }

  lemma MarchStep(year: int)
    ensures MarchFirst(year + 1) == MarchFirst(year) + 365 + (if Leap(year + 1) then 1 else 0)
  {
    QuarterStep(year);
  }

  lemma {:induction false} MarchAfterJanuary(year: nat)
    requires year >= 1969
    ensures MarchFirst(year) == JanuaryFirst(year) + 59 + (if Leap(year) then 1 else 0)
  {
    if year > 1969 {
      hide MarchFirst, Leap;
      MarchAfterJanuary(year - 1);
      MarchStep(year - 1);
    }
  }

  lemma EraYears(era: int, w: int)
    requires 0 <= w < 400
    ensures (400 * era + w) / 4 == 100 * era + w / 4
    ensures (400 * era + w) / 100 == 4 * era + w / 100
    ensures (400 * era + w) / 400 == era
  {
  }

  lemma ModHundred(a: int, r: int)
    requires 0 <= r < 100
    ensures (100 * a + r) % 100 == r
  {
  }

  lemma ModFour(a: int)
    ensures (4 * a) % 4 == 0
  {
  }

  lemma LeapNotCentury(y: int)
    requires y % 4 == 0 && y % 100 != 0
    ensures Leap(y)
  {
  }

  lemma LeapInCentury(century: int, k: int)
    requires 1 <= k <= 24
    ensures Leap(100 * century + 4 * k)
  {
    hide Leap;
    ModFour(25 * century + k);
    ModHundred(century, 4 * k);
    var y := 100 * century + 4 * k;
    assert 4 * (25 * century + k) == y;
    LeapNotCentury(y);
  }

  lemma LeapByEra(era: int)
    ensures Leap(400 * era)
  {
  }

  /** A year with a 29th of February at its end comes before a leap year. */
  lemma LeapAhead(era: int, c: int, q: int)
    requires q < 24 || c == 3
    requires 0 <= c <= 3 && 0 <= q <= 24
    ensures Leap(400 * era + 100 * c + 4 * q + 4)
  {
    hide Leap;
    if q < 24 {
      LeapInCentury(4 * era + c, q + 1);
      assert 100 * (4 * era + c) + 4 * (q + 1) == 400 * era + 100 * c + 4 * q + 4;
    } else {
      LeapByEra(era + 1);
      assert 400 * (era + 1) == 400 * era + 100 * c + 4 * q + 4;
    }
  }

  /** A day of an era is that many days after the first of March of its year. */
  lemma EraIsMarch(era: int, doe: int, c: int, q: int, t: int, u: int)
    requires EraSplit(doe, c, q, t, u)
    ensures var y := 400 * era + 100 * c + 4 * q + t;
      && 146097 * era + doe - 719468 == MarchFirst(y) + u
      && (u == 365 ==> Leap(y + 1))
  {
    hide Leap;
    EraYears(era, 100 * c + 4 * q + t);
    YearParts(c, q, t);
    if u == 365 {
      LeapAhead(era, c, q);
    }
  }

  /** Every day from 1970 on gets its date, with the year cut to 16 bits. */
  lemma DateIsGregorian(days: nat) returns (doy: nat, year: nat)
    requires days + 719468 <= INT64_MAX
    ensures IsDate(days, doy, year)
    ensures UtcDateFromUnixDays(days) == (doy, year % 0x1_0000)
  {
    hide YearOfEra, DayFromMarch, MonthDay, Leap, MarchFirst, JanuaryFirst;
    var z := days + 719468;
    var era, doe := z / 146097, z % 146097;
    var c, q, t, u := SplitEra(doe);
    YearOfEraExact(doe, c, q, t, u);
    EraIsMarch(era, doe, c, q, t, u);
    MonthsOf(u);
    var y := 400 * era + 100 * c + 4 * q + t;
    assert days == MarchFirst(y) + u;
    MarchNotBefore(y, days, u);
    MarchAfterJanuary(y);
    JanuaryStep(y);
    if u >= 306 {
      doy, year := u - 305, y + 1;
    } else {
      doy, year := u + 60 + (if Leap(y) then 1 else 0), y;
    }
  }

  lemma JanuaryStep(year: nat)
    requires year >= 1969
    ensures JanuaryFirst(year + 1) == JanuaryFirst(year) + YearDays(year)
  {
  }

  lemma {:induction false} MarchNotBefore(year: int, days: nat, u: int)
    requires days == MarchFirst(year) + u && u <= 365
    ensures year >= 1969
  {
    if year < 1969 {
      MarchBelow(year);
      assert false;
    }
  }

  lemma MarchBelow(year: int)
    requires year < 1969
    ensures MarchFirst(year) < -365
  {
    assert year / 4 <= 492 && year / 400 <= 4;
    assert year / 4 - year / 100 + year / 400 <= 492 - 19 + 4;
  }

  // What follows ------------------------------------------------------------

  lemma {:induction false} JanuaryGrows(a: nat, b: nat)
    requires 1969 <= a < b
    ensures JanuaryFirst(a) + YearDays(a) <= JanuaryFirst(b)
    decreases b
  {
    if a < b - 1 {
      JanuaryGrows(a, b - 1);
    }
  }

  /** No other day of any year has the same day number. */
  lemma DateIsUnique(days: int, doy: int, year: nat, doy': int, year': nat)
    requires IsDate(days, doy, year) && IsDate(days, doy', year')
    ensures doy == doy' && year == year'
  {
    hide JanuaryFirst, YearDays;
    if year < year' {
      JanuaryGrows(year, year');
    } else if year' < year {
      JanuaryGrows(year', year);
    }
  }

  lemma EpochIsDate()
    ensures IsDate(0, 1, 1970)
  {
    assert JanuaryFirst(1969) == -365;
  }

  /** The day after: the next day of the year, or the first day of the next year. */
  function NextDate(doy: int, year: int): (int, int) {
    if doy < YearDays(year) then (doy + 1, year) else (1, year + 1)
  }

  lemma NextIsDate(days: int, doy: int, year: nat)
    requires IsDate(days, doy, year)
    ensures IsDate(days + 1, NextDate(doy, year).0, NextDate(doy, year).1)
  {
    hide Leap;
  }

  /** The date is exact for every day whose year fits 16 bits. */
  lemma DateExact(days: nat, doy: int, year: nat)
    requires days + 719468 <= INT64_MAX && IsDate(days, doy, year) && year <= 0xFFFF
    ensures UtcDateFromUnixDays(days) == (doy, year)
  {
    hide IsDate, UtcDateFromUnixDays;
    var doy', year' := DateIsGregorian(days);
    DateIsUnique(days, doy, year, doy', year');
  }

  /** The first day is 1970-01-01, and each later day is the successor of the one before. */
  lemma DatesSucceed(days: nat, doy: int, year: nat)
    requires days + 719469 <= INT64_MAX && IsDate(days, doy, year) && year < 0xFFFF
    ensures UtcDateFromUnixDays(0) == (1, 1970)
    ensures UtcDateFromUnixDays(days + 1) == NextDate(UtcDateFromUnixDays(days).0, UtcDateFromUnixDays(days).1)
  {
    hide IsDate, UtcDateFromUnixDays, NextDate;
    EpochIsDate();
    DateExact(0, 1, 1970);
    DateExact(days, doy, year);
    NextIsDate(days, doy, year);
    NextYear(doy, year);
    DateExact(days + 1, NextDate(doy, year).0, NextDate(doy, year).1);
  }

  lemma NextYear(doy: int, year: nat)
    ensures year <= NextDate(doy, year).1 <= year + 1
  {
  }
}

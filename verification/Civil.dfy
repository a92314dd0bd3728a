/**
 The proleptic Gregorian date of a day number, computed with whole eras of 400
 years that start on the first of March, and the calendar that it must follow.
 */
module Civil {

  datatype Date = Date(year: int, month: int, day: int)

  /** The date `days` after 1970-01-01. */
  function FromDays(days: int): Date {
    var shifted := days + 719_468;
    DateInEra(shifted / 146_097, shifted % 146_097)
  }

  function DateInEra(era: int, dayOfEra: int): Date {
    var yearOfEra := YearOfEra(dayOfEra);
    DateIn(yearOfEra + era * 400, dayOfEra - (365 * yearOfEra + yearOfEra / 4 - yearOfEra / 100))
  }

  function YearOfEra(dayOfEra: int): int {
    (dayOfEra - dayOfEra / 1_460 + dayOfEra / 36_524 - dayOfEra / 146_096) / 365
  }

  /** The date of a day in a year that starts on the first of March. */
  function DateIn(year: int, dayOfYear: int): Date {
    var shiftedMonth := (5 * dayOfYear + 2) / 153;
    var day := dayOfYear - (153 * shiftedMonth + 2) / 5 + 1;
    var month := if shiftedMonth < 10 then shiftedMonth + 3 else shiftedMonth - 9;
    Date(if month <= 2 then year + 1 else year, month, day)
  }

  // --- The calendar -----------------------------------------------------------------

  predicate Leap(year: int) {
    year % 4 == 0 && (year % 100 != 0 || year % 400 == 0)
  }

  function MonthLength(year: int, month: int): int {
    if month == 2 then (if Leap(year) then 29 else 28)
    else if month == 4 || month == 6 || month == 9 || month == 11 then 30
    else 31
  }

  predicate Valid(d: Date) {
    1 <= d.month <= 12 && 1 <= d.day <= MonthLength(d.year, d.month)
  }

  /** The day after. */
  function Next(d: Date): Date {
    if d.day < MonthLength(d.year, d.month) then Date(d.year, d.month, d.day + 1)
    else if d.month < 12 then Date(d.year, d.month + 1, 1)
    else Date(d.year + 1, 1, 1)
  }

  // --- The place of a day in its era ---------------------------------------------------

  /** The century, the group of four years, the year and the day: of day `k` in year 100c + 4q + r of the era. */
  datatype Place = Place(era: int, c: int, q: int, r: int, k: int)

  /** The year that ends with a leap day. */
  predicate Long(c: int, q: int, r: int) { r == 3 && (q != 24 || c == 3) }

  predicate Fits(p: Place) {
    0 <= p.c < 4 && 0 <= p.q < 25 && 0 <= p.r < 4 && 0 <= p.k < (if Long(p.c, p.q, p.r) then 366 else 365)
  }

  function DayOfEra(p: Place): int { 36_524 * p.c + 1_461 * p.q + 365 * p.r + p.k }

  function Days(p: Place): int { 146_097 * p.era + DayOfEra(p) - 719_468 }

  function Year(p: Place): int { 400 * p.era + 100 * p.c + 4 * p.q + p.r }

  lemma {:induction false} Divides(a: int, b: int, q: int, r: int)
    requires b > 0 && 0 <= r < b && a == b * q + r
    ensures a / b == q && a % b == r
  {
    var d := a / b;
    assert d > q ==> b * d >= b * (q + 1);
    assert d < q ==> b * q >= b * (d + 1);
  }

  /** The year of the era is computed right, for every day of the era. */
  lemma {:induction false} YearOfEraIs(p: Place)
    requires Fits(p)
    ensures 0 <= DayOfEra(p) < 146_097 && YearOfEra(DayOfEra(p)) == 100 * p.c + 4 * p.q + p.r
  {
    var d, t := DayOfEra(p), 24 * p.c + p.q + 365 * p.r + p.k;
    var over := if t >= 1_460 then 1 else 0;
    Divides(d, 1_460, 25 * p.c + p.q + over, t - 1_460 * over);
    var last := if d == 146_096 then 1 else 0;
    Divides(d, 36_524, p.c + last, d - 36_524 * (p.c + last));
    Divides(d, 146_096, last, d - 146_096 * last);
    Divides(d - d / 1_460 + d / 36_524 - d / 146_096, 365, 100 * p.c + 4 * p.q + p.r, p.k - over);
  }

  lemma {:induction false} DateInEraIs(p: Place, y: int)
    requires Fits(p) && y == 100 * p.c + 4 * p.q + p.r
    ensures DateInEra(p.era, DayOfEra(p)) == DateIn(Year(p), p.k)
  {
    YearOfEraIs(p);
    Divides(y, 4, 25 * p.c + p.q, p.r);
    Divides(y, 100, p.c, 4 * p.q + p.r);
  }

  lemma {:induction false} FromDaysIs(p: Place)
    requires Fits(p)
    ensures FromDays(Days(p)) == DateIn(Year(p), p.k)
  {
    YearOfEraIs(p);
    Divides(Days(p) + 719_468, 146_097, p.era, DayOfEra(p));
    DateInEraIs(p, 100 * p.c + 4 * p.q + p.r);
  }

  /** Every day number has a place. */
  lemma {:induction false} PlaceOf(days: int) returns (p: Place)
    ensures Fits(p) && Days(p) == days
  {
    var era, d := (days + 719_468) / 146_097, (days + 719_468) % 146_097;
    var c := if d / 36_524 == 4 then 3 else d / 36_524;
    var inCentury := d - 36_524 * c;
    var q, inFour := inCentury / 1_461, inCentury % 1_461;
    var r := if inFour / 365 == 4 then 3 else inFour / 365;
    p := Place(era, c, q, r, inFour - 365 * r);
  }

  lemma {:induction false} LongIsLeap(p: Place)
    requires Fits(p)
    ensures Leap(Year(p) + 1) <==> Long(p.c, p.q, p.r)
  {
    var y, n := Year(p) + 1, 4 * p.q + p.r + 1;
    Divides(y, 4, 100 * p.era + 25 * p.c + p.q + (if p.r == 3 then 1 else 0), if p.r == 3 then 0 else p.r + 1);
    if n == 100 {
      Divides(y, 100, 4 * p.era + p.c + 1, 0);
      if p.c == 3 {
        Divides(y, 400, p.era + 1, 0);
      } else {
        Divides(y, 400, p.era, 100 * p.c + 100);
      }
    } else {
      Divides(y, 100, 4 * p.era + p.c, n);
    }
  }

  // --- Months -------------------------------------------------------------------------

  /** The first day of month `m`, counted from March as 0, in a year that starts there. */
  function MonthStart(m: int): int { (153 * m + 2) / 5 }

  /** The starts are the running sums of the month lengths, and the month of a day is found from them. */
  lemma {:induction false} MonthOf(k: int, m: int)
    requires 0 <= k < 366 && m == (5 * k + 2) / 153
    ensures 0 <= m < 12 && MonthStart(m) <= k && (m < 11 ==> k < MonthStart(m + 1))
  {
  }

  lemma {:induction false} MonthSpan(year: int, m: int)
    requires 0 <= m < 11
    ensures var month := if m < 10 then m + 3 else m - 9;
            MonthStart(m + 1) - MonthStart(m) == MonthLength(if month <= 2 then year + 1 else year, month)
  {
  }

  lemma {:induction false} MonthIs(k: int, m: int)
    requires 0 <= m < 12 && MonthStart(m) <= k < 366 && (m < 11 ==> k < MonthStart(m + 1))
    ensures (5 * k + 2) / 153 == m
  {
  }

  lemma {:induction false} DateIsValid(p: Place)
    requires Fits(p)
    ensures Valid(DateIn(Year(p), p.k))
  {
    var m := (5 * p.k + 2) / 153;
    MonthOf(p.k, m);
    LongIsLeap(p);
    if m < 11 {
      MonthSpan(Year(p), m);
    } else {
      assert MonthStart(11) == 337;
    }
  }

  /** The place of the day after. */
  function After(p: Place): Place {
    if p.k < (if Long(p.c, p.q, p.r) then 365 else 364) then p.(k := p.k + 1)
    else if p.r < 3 then Place(p.era, p.c, p.q, p.r + 1, 0)
    else if p.q < 24 then Place(p.era, p.c, p.q + 1, 0, 0)
    else if p.c < 3 then Place(p.era, p.c + 1, 0, 0, 0)
    else Place(p.era + 1, 0, 0, 0, 0)
  }

  lemma {:induction false} AfterIsNextDay(p: Place)
    requires Fits(p)
    ensures Fits(After(p)) && Days(After(p)) == Days(p) + 1
    ensures Year(After(p)) == if After(p).k == 0 then Year(p) + 1 else Year(p)
  {
  }

  lemma {:induction false} DateInYear(year: int, k: int, next: int, m: int)
    requires 0 <= k < next == k + 1 < 366 && m == (5 * k + 2) / 153
    requires k < 364 || Leap(year + 1)
    ensures DateIn(year, next) == Next(DateIn(year, k))
  {
    MonthOf(k, m);
    if m < 11 {
      MonthSpan(year, m);
      if next < MonthStart(m + 1) {
        MonthIs(next, m);
      } else {
        MonthIs(next, m + 1);
      }
    } else {
      assert MonthStart(11) == 337;
      MonthIs(next, 11);
    }
  }

  lemma {:induction false} YearEnds(year: int, k: int)
    requires k == if Leap(year + 1) then 365 else 364
    ensures DateIn(year + 1, 0) == Next(DateIn(year, k))
  {
    assert (5 * k + 2) / 153 == 11 && MonthStart(11) == 337 && MonthStart(0) == 0;
  }

  lemma {:induction false} DateAfter(p: Place)
    requires Fits(p)
    ensures DateIn(Year(After(p)), After(p).k) == Next(DateIn(Year(p), p.k))
  {
    AfterIsNextDay(p);
    LongIsLeap(p);
    if After(p).k == 0 {
      YearEnds(Year(p), p.k);
    } else {
      DateInYear(Year(p), p.k, p.k + 1, (5 * p.k + 2) / 153);
    }
  }

  /** Every day number gives a date of the calendar, and the next number gives the next date. */
  lemma {:induction false} FollowsCalendar(days: int)
    ensures Valid(FromDays(days)) && FromDays(days + 1) == Next(FromDays(days))
  {
    var p := PlaceOf(days);
    FromDaysIs(p);
    DateIsValid(p);
    AfterIsNextDay(p);
    FromDaysIs(After(p));
    DateAfter(p);
  }

  lemma {:induction false} StartsAtEpoch()
    ensures FromDays(0) == Date(1970, 1, 1)
  {
    FromDaysIs(Place(4, 3, 17, 1, 306));
    assert MonthStart(10) == 306;
  }

  // --- The way back ---------------------------------------------------------------------

  /** The day number of a date. */
  function ToDays(d: Date): int {
    var year := if d.month <= 2 then d.year - 1 else d.year;
    var m := if d.month <= 2 then d.month + 9 else d.month - 3;
    var yearOfEra := year % 400;
    146_097 * (year / 400) + 365 * yearOfEra + yearOfEra / 4 - yearOfEra / 100 + MonthStart(m) + d.day - 1 - 719_468
  }

  lemma {:induction false} ToDaysIs(p: Place, y: int)
    requires Fits(p) && y == 100 * p.c + 4 * p.q + p.r
    ensures ToDays(DateIn(Year(p), p.k)) == Days(p)
  {
    MonthOf(p.k, (5 * p.k + 2) / 153);
    Divides(Year(p), 400, p.era, y);
    Divides(y, 4, 25 * p.c + p.q, p.r);
    Divides(y, 100, p.c, 4 * p.q + p.r);
  }

  /** Each date of the calendar has a place. */
  lemma {:induction false} PlaceOfDate(d: Date) returns (p: Place)
    requires Valid(d)
    ensures Fits(p) && DateIn(Year(p), p.k) == d
  {
    var year := if d.month <= 2 then d.year - 1 else d.year;
    var m := if d.month <= 2 then d.month + 9 else d.month - 3;
    var y := year % 400;
    var k := MonthStart(m) + d.day - 1;
    p := Place(year / 400, y / 100, (y % 100) / 4, y % 4, 0);
    assert Year(p) == year;
    LongIsLeap(p);
    if m < 11 {
      MonthSpan(year, m);
    } else {
      assert MonthStart(11) == 337;
    }
    MonthIs(k, m);
    p := p.(k := k);
  }

  /** Day numbers and dates are in bijection. */
  lemma {:induction false} Bijection(days: int, d: Date)
    ensures ToDays(FromDays(days)) == days
    ensures Valid(d) ==> FromDays(ToDays(d)) == d
  {
    var p := PlaceOf(days);
    FromDaysIs(p);
    ToDaysIs(p, 100 * p.c + 4 * p.q + p.r);
    if Valid(d) {
      var place := PlaceOfDate(d);
      FromDaysIs(place);
      ToDaysIs(place, 100 * place.c + 4 * place.q + place.r);
    }
  }
}

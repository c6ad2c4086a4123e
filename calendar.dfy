/** The calendar arithmetic the calculator relies on, in the proleptic
    Gregorian calendar: dates as (year, month, day) with months numbered
    1..12, the leap-year rule, the calendar order, the day after and the day
    before a date, and the day-overflow normalisation that building a date
    from fields performs. Years are taken as given, without the source's
    remapping of years 0..99 and without its limit on the range of dates. */
module Calendar {

  datatype Date = Date(year: int, month: int, day: int)

  /** The Gregorian leap-year rule. A zero remainder is the same under a
      truncating and a Euclidean `%`, so negative years are tested as the
      source would test them. */
  predicate IsLeapYear(year: int)
    ensures IsLeapYear(year) ==> year % 4 == 0
    ensures year % 4 == 0 && year % 100 != 0 ==> IsLeapYear(year)
    ensures year % 100 == 0 ==> (IsLeapYear(year) <==> year % 400 == 0)
  {
    (year % 4 == 0 && year % 100 != 0) || year % 400 == 0
  }

  /** The leap-year rule repeats every 400 years. */
  lemma LeapYearRule(year: int)
    ensures IsLeapYear(year) == IsLeapYear(year + 400)
  {
    RemaindersAfter400(year);
  }

  /** Adding 400 leaves the remainders by 4, 100 and 400 unchanged. */
  lemma RemaindersAfter400(year: int)
    ensures (year + 400) % 4 == year % 4
    ensures (year + 400) % 100 == year % 100
    ensures (year + 400) % 400 == year % 400
  {
    var d4 := (year + 400) / 4 - year / 4 - 100;
    assert 4 * d4 == year % 4 - (year + 400) % 4;
    assert -4 < 4 * d4 < 4;
    assert d4 == 0;
    var d100 := (year + 400) / 100 - year / 100 - 4;
    assert 100 * d100 == year % 100 - (year + 400) % 100;
    assert -100 < 100 * d100 < 100;
    assert d100 == 0;
    var d400 := (year + 400) / 400 - year / 400 - 1;
    assert 400 * d400 == year % 400 - (year + 400) % 400;
    assert -400 < 400 * d400 < 400;
    assert d400 == 0;
  }

  lemma LeapYearExamples()
    ensures IsLeapYear(2024) && IsLeapYear(2000) && IsLeapYear(2016)
    ensures !IsLeapYear(2023) && !IsLeapYear(1900) && !IsLeapYear(2100)
  {
  }

  function DaysInMonth(year: int, month: int): (n: int)
    requires 1 <= month <= 12
    ensures 28 <= n <= 31
    ensures month == 2 ==> (n == 29 <==> IsLeapYear(year)) && (n == 28 <==> !IsLeapYear(year))
    ensures month != 2 ==> n >= 30
  {
    if month == 2 then (if IsLeapYear(year) then 29 else 28)
    else if month == 4 || month == 6 || month == 9 || month == 11 then 30
    else 31
  }

  /** A date that exists in the calendar. */
  predicate Valid(d: Date)
  {
    1 <= d.month <= 12 && 1 <= d.day <= DaysInMonth(d.year, d.month)
  }

  /** Calendar order: `a` is a strictly earlier day than `b`. */
  predicate Before(a: Date, b: Date)
  {
    a.year < b.year ||
    (a.year == b.year && (a.month < b.month || (a.month == b.month && a.day < b.day)))
  }

  predicate AtOrBefore(a: Date, b: Date)
  {
    Before(a, b) || a == b
  }

  /** The calendar order is a strict total order. */
  lemma OrderIsTotal(a: Date, b: Date, c: Date)
    ensures !Before(a, a)
    ensures Before(a, b) ==> !Before(b, a)
    ensures Before(a, b) && Before(b, c) ==> Before(a, c)
    ensures Before(a, b) || a == b || Before(b, a)
  {
  }

  function NextDay(d: Date): (r: Date)
    requires Valid(d)
    ensures Valid(r) && Before(d, r)
  {
    if d.day < DaysInMonth(d.year, d.month) then Date(d.year, d.month, d.day + 1)
    else if d.month < 12 then Date(d.year, d.month + 1, 1)
    else Date(d.year + 1, 1, 1)
  }

  function PrevDay(d: Date): (r: Date)
    requires Valid(d)
    ensures Valid(r) && Before(r, d)
  {
    if d.day > 1 then Date(d.year, d.month, d.day - 1)
    else if d.month > 1 then Date(d.year, d.month - 1, DaysInMonth(d.year, d.month - 1))
    else Date(d.year - 1, 12, 31)
  }

  /** The day after and the day before undo each other. */
  lemma NextPrevRoundTrip(d: Date)
    requires Valid(d)
    ensures PrevDay(NextDay(d)) == d
    ensures NextDay(PrevDay(d)) == d
  {
  }

  /** No date lies strictly between a date and the day after it, so the day
      after is the earliest date later than `d`, and the day before is the
      latest date earlier than `d`. */
  lemma NoDateBetween(d: Date, e: Date)
    requires Valid(d) && Valid(e)
    ensures Before(d, e) <==> AtOrBefore(NextDay(d), e)
    ensures Before(e, d) <==> AtOrBefore(e, PrevDay(d))
  {
  }

  /** `new Date(year, month, day)` for a day field in 0..31: day 0 is the
      last day of the previous month, a day past the end of the month runs on
      into the next one. (The source numbers months from 0; here they run
      from 1.) */
  function FromFields(year: int, month: int, day: int): (r: Date)
    requires 1 <= month <= 12 && 0 <= day <= 31
    ensures Valid(r)
    ensures 1 <= day <= DaysInMonth(year, month) ==> r == Date(year, month, day)
    ensures day == 0 ==> NextDay(r) == Date(year, month, 1)
    ensures day > DaysInMonth(year, month) ==>
              r.day == day - DaysInMonth(year, month) &&
              PrevDay(Date(r.year, r.month, 1)) == Date(year, month, DaysInMonth(year, month))
  {
    var length := DaysInMonth(year, month);
    if day == 0 then PrevDay(Date(year, month, 1))
    else if day <= length then Date(year, month, day)
    else if month < 12 then Date(year, month + 1, day - length)
    else Date(year + 1, 1, day - length)
  }

  /** The day field counts days from the first of the month: field 1 is the
      first, and each further unit is the next calendar day. */
  lemma FromFieldsCountsDays(year: int, month: int, day: int)
    requires 1 <= month <= 12 && 0 <= day < 31
    ensures FromFields(year, month, 1) == Date(year, month, 1)
    ensures FromFields(year, month, day + 1) == NextDay(FromFields(year, month, day))
  {
  }

  /** `Date.prototype.setDate`: keep the year and month, replace the day field. */
  function SetDate(d: Date, day: int): (r: Date)
    requires Valid(d) && 0 <= day <= 31
    ensures Valid(r)
    ensures 1 <= day <= DaysInMonth(d.year, d.month) ==> r == d.(day := day)
  {
    FromFields(d.year, d.month, day)
  }
}

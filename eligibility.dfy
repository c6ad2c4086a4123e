/** The eligibility window of the childcare-hours benefit: a child qualifies
    until the later of the day before its 9th birthday and the day before
    March 1 of the year the calculator takes as the 3rd-grade year, which it
    computes as birth year + 8. */
module Eligibility {
  import opened Calendar

  datatype Option<T> = None | Some(value: T)

  /** The day before the 9th birthday, built as `new Date(year + 9, month,
      day - 1)`. When the birthday exists in year + 9 the cutoff is the day
      before it; a child born on February 29 whose 9th birthday year is not
      a leap year gets February 28. */
  function AgeCutoff(birth: Date): (r: Date)
    requires Valid(birth)
    ensures Valid(r)
    ensures Valid(Date(birth.year + 9, birth.month, birth.day)) ==>
              NextDay(r) == Date(birth.year + 9, birth.month, birth.day)
    ensures !Valid(Date(birth.year + 9, birth.month, birth.day)) ==>
              birth.month == 2 && birth.day == 29 && r == Date(birth.year + 9, 2, 28)
  {
    FromFields(birth.year + 9, birth.month, birth.day - 1)
  }

  /** The age cutoff always lies between December 31 of birth year + 8 and
      December 30 of birth year + 9. */
  lemma AgeCutoffWindow(birth: Date)
    requires Valid(birth)
    ensures AtOrBefore(Date(birth.year + 8, 12, 31), AgeCutoff(birth))
    ensures Before(AgeCutoff(birth), Date(birth.year + 9, 12, 31))
  {
  }

  /** A child born on January 1 stops at December 31 of birth year + 8. */
  lemma AgeCutoffOfNewYearBirth(year: int)
    ensures AgeCutoff(Date(year, 1, 1)) == Date(year + 8, 12, 31)
  {
  }

  /** The day before March 1 of the year the calculator takes as the
      3rd-grade year (birth year + 8), built as February 28 and moved to the
      29th in a leap year. */
  function GradeCutoff(birth: Date): (r: Date)
    requires Valid(birth)
    ensures Valid(r)
    ensures r.year == birth.year + 8 && r.month == 2
    ensures r.day == 29 <==> IsLeapYear(birth.year + 8)
    ensures NextDay(r) == Date(birth.year + 8, 3, 1)
  {
    var grade3Year := birth.year + 8;
    var grade3Date := FromFields(grade3Year, 2, 28);
    if IsLeapYear(grade3Year) then SetDate(grade3Date, 29) else grade3Date
  }

  /** The last day on which the benefit may be used: the later of the two cutoffs. */
  function LastUsableDate(birth: Date): (r: Date)
    requires Valid(birth)
    ensures Valid(r)
    ensures r == AgeCutoff(birth) || r == GradeCutoff(birth)
    ensures AtOrBefore(AgeCutoff(birth), r) && AtOrBefore(GradeCutoff(birth), r)
  {
    var age9Date := AgeCutoff(birth);
    var grade3Date := GradeCutoff(birth);
    if Before(grade3Date, age9Date) then age9Date else grade3Date
  }

  /** The grade cutoff is never the later one: it falls in February of
      birth year + 8, before the age cutoff's earliest possible day. */
  lemma GradeCutoffNeverLater(birth: Date)
    requires Valid(birth)
    ensures Before(GradeCutoff(birth), AgeCutoff(birth))
    ensures LastUsableDate(birth) == AgeCutoff(birth)
  {
  }

  /** On calendar days: `today` is at or before the last usable date. */
  predicate IsEligible(birth: Date, today: Date)
    requires Valid(birth)
    ensures IsEligible(birth, today) <==>
              AtOrBefore(today, AgeCutoff(birth)) || AtOrBefore(today, GradeCutoff(birth))
  {
    AtOrBefore(today, LastUsableDate(birth))
  }

  /** `isEligibleChild`, decided on calendar days: a birth date that did not
      parse (an invalid Date, whose comparisons are all false) is never
      eligible. The comparison of the current instant as the source writes it
      is `IsEligibleAtInstant` below. */
  predicate IsEligibleChild(birthDate: Option<Date>, today: Date)
    requires birthDate.Some? ==> Valid(birthDate.value)
    ensures IsEligibleChild(birthDate, today) ==> birthDate.Some?
    ensures birthDate.Some? ==>
              (IsEligibleChild(birthDate, today) <==> AtOrBefore(today, AgeCutoff(birthDate.value)))
  {
    match birthDate
    case None => false
    case Some(birth) => IsEligible(birth, today)
  }

  /** The last usable date itself is eligible and the day after it is not. */
  lemma EligibleBoundary(birth: Date)
    requires Valid(birth)
    ensures IsEligible(birth, LastUsableDate(birth))
    ensures !IsEligible(birth, NextDay(LastUsableDate(birth)))
  {
  }

  /** Eligible on some day implies eligible on every earlier day. */
  lemma EligibleMonotone(birth: Date, earlier: Date, later: Date)
    requires Valid(birth)
    requires AtOrBefore(earlier, later) && IsEligible(birth, later)
    ensures IsEligible(birth, earlier)
  {
  }

  /** Eligibility ends exactly at the 9th birthday: a child is eligible on a
      calendar day precisely when that day is before the 9th birthday (before
      March 1 of birth year + 9 for a February 29 birth whose birthday does
      not occur that year). */
  lemma EligibleUntilNinthBirthday(birth: Date, today: Date)
    requires Valid(birth) && Valid(today)
    ensures Valid(Date(birth.year + 9, birth.month, birth.day)) ==>
              (IsEligible(birth, today) <==> Before(today, Date(birth.year + 9, birth.month, birth.day)))
    ensures !Valid(Date(birth.year + 9, birth.month, birth.day)) ==>
              (IsEligible(birth, today) <==> Before(today, Date(birth.year + 9, 3, 1)))
  {
  }

  // The comparison as the source performs it. `today` is the current moment,
  // with its time of day, and the last usable date is built at local
  // midnight, so the two are compared as instants.

  const MillisPerDay: nat := 86_400_000

  /** Milliseconds elapsed since local midnight. */
  type Millis = m: nat | m < MillisPerDay

  /** A moment: a calendar day and the time elapsed since its local midnight. */
  datatype Instant = Instant(date: Date, millis: Millis)

  predicate InstantAtOrBefore(a: Instant, b: Instant)
  {
    Before(a.date, b.date) || (a.date == b.date && a.millis <= b.millis)
  }

  /** `today <= usageEndDate` with `today` read from the clock and
      `usageEndDate` at midnight of the last usable day. */
  predicate IsEligibleAtInstant(birth: Date, now: Instant)
    requires Valid(birth)
    ensures IsEligibleAtInstant(birth, now) ==> IsEligible(birth, now.date)
    ensures now.date != LastUsableDate(birth) ==>
              (IsEligibleAtInstant(birth, now) <==> IsEligible(birth, now.date))
  {
    InstantAtOrBefore(now, Instant(LastUsableDate(birth), 0))
  }

  /** As written, the instant comparison agrees with the calendar-day one
      except on the last usable day itself, where only its first millisecond
      is still eligible. */
  lemma InstantComparisonDiffers(birth: Date, now: Instant)
    requires Valid(birth)
    ensures IsEligibleAtInstant(birth, now) <==>
              IsEligible(birth, now.date) && (now.date != LastUsableDate(birth) || now.millis == 0)
  {
  }

  /** A child born on 2015-01-01, checked at noon on 2023-12-31, its last
      usable day: the instant comparison refuses what the calendar-day rule allows. */
  lemma LastDayRefusedAtNoon()
    ensures LastUsableDate(Date(2015, 1, 1)) == Date(2023, 12, 31)
    ensures IsEligible(Date(2015, 1, 1), Date(2023, 12, 31))
    ensures !IsEligibleAtInstant(Date(2015, 1, 1), Instant(Date(2023, 12, 31), 43_200_000))
  {
  }
}

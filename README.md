# Childcare-hours calculator, modelled in Dafny

This project models the calculation behind a parental part-time-work
("childcare hours") calculator. It has three parts:

- **Eligibility.** A child qualifies until the later of two cutoffs. The first
  is the day before its 9th birthday. The second is the day before March 1 of
  the year the code takes as the 3rd-grade year, which it computes as birth
  year + 8.
- **Balance.** The calculator sums the months of every continuous usage
  period. It adds the non-continuous days converted to whole months at 20
  days per month. It reports the months remaining out of 36, never below
  zero, and the days left over from the conversion.
- **Refusal.** A child who is no longer eligible gets only a refusal message.

Files:

- `calendar.dfy` (module `Calendar`) covers the date arithmetic the
  calculator relies on: Gregorian leap years, month lengths, the calendar
  order, the day after and the day before a date, `new Date(year, month, day)`
  with day-field roll-over (`FromFields`), and `setDate` (`SetDate`).
- `eligibility.dfy` (module `Eligibility`) covers the two cutoffs, the last
  usable date, the eligibility test, and the instant-versus-calendar-day
  comparison the source performs (see Findings).
- `leave.dfy` (module `Leave`) covers the request and response datatypes and
  the calculator itself. The calculator is a method whose loop accumulates
  the months, proved equal to the recursive sum `SumMonths`.

Modelling choices:

- "Today" is a parameter. It is a calendar date, or an `Instant` (a date plus
  milliseconds since local midnight) where the time of day matters.
- Months are numbered 1..12. The source's `Date` numbers them from 0.
- A birth date that did not parse is `None`. The source compares an invalid
  `Date`, and every such comparison is false, so the child is reported
  ineligible. No error is raised. An invalid birth date could instead be
  reported as an error; the model follows the code.
- An absent or non-array `continuousMonths` is `None` and contributes nothing.
  An absent `nonContinuousDays` is `None`. The source treats 0 and an absent
  value alike, and both give the same result.
- Period months and day counts are natural numbers.

## Model

| member | source | states |
|---|---|---|
| Calendar.IsLeapYear | server.js:32-34 | The leap-year test is the Gregorian rule: a leap year is divisible by 4, a year divisible by 4 but not 100 is leap, and a year divisible by 100 is leap exactly when divisible by 400 |
| Calendar.LeapYearRule | server.js:32-34 | The leap-year rule repeats every 400 years |
| Calendar.LeapYearExamples | server.js:32-34 | 2024, 2000 and 2016 are leap years; 2023, 1900 and 2100 are not |
| Calendar.FromFields | server.js:14-18 | Building a date from (year, month, day field) always gives a real date: a day field that exists in the month gives exactly that date, field 0 gives the day before the first of the month, and a field past the month's end runs on into the first days of the next month |
| Calendar.FromFieldsCountsDays | server.js:14 | Building a date from (year, month, day field) counts the day field from the first of the month: field 1 is the first, and each further unit is the next calendar day, so field 0 is the last day of the previous month and the year rolls over |
| Calendar.SetDate | server.js:22 | Setting the day field to a day that exists in the month keeps year and month and gives exactly that date; the result is always a real date |
| Eligibility.AgeCutoff | server.js:14 | The age cutoff is a real date whose next day is the 9th birthday (year + 9, same month and day); for a February 29 birth whose 9th birthday year is not leap it is February 28 of that year |
| Eligibility.AgeCutoffWindow | server.js:14 | The age cutoff lies on or after December 31 of birth year + 8 and before December 31 of birth year + 9 |
| Eligibility.AgeCutoffOfNewYearBirth | server.js:14 | A January 1 birth gives December 31 of birth year + 8 |
| Eligibility.GradeCutoff | server.js:17-23 | The grade cutoff is in February of birth year + 8, is the 29th exactly when that year is leap, is a real date, and its next day is March 1 of birth year + 8 |
| Eligibility.LastUsableDate | server.js:25-26 | The last usable date is one of the two cutoffs and is on or after both (their maximum) |
| Eligibility.GradeCutoffNeverLater | server.js:14-26 | The grade cutoff is always strictly before the age cutoff, so the last usable date is the age cutoff |
| Eligibility.IsEligible | server.js:25-28 | On calendar days, a child is eligible exactly when today is on or before the age cutoff or on or before the grade cutoff, that is, on or before the later of the two |
| Eligibility.IsEligibleChild | server.js:9-29 | On calendar days: a birth date that did not parse is never eligible; a parsed one is eligible exactly when today is on or before its age cutoff |
| Eligibility.EligibleBoundary | server.js:26-28 | A child is eligible on its last usable date and not on the day after it |
| Eligibility.EligibleMonotone | server.js:28 | Eligible on a day implies eligible on every earlier day |
| Eligibility.EligibleUntilNinthBirthday | server.js:9-28 | A child is eligible on a calendar day exactly when that day is before its 9th birthday (before March 1 of birth year + 9 when the February 29 birthday does not occur that year) |
| Eligibility.IsEligibleAtInstant | server.js:11-28 | The comparison of the current instant with midnight of the last usable date accepts only moments whose day is eligible, and agrees with the calendar-day rule on every day other than the last usable day |
| Eligibility.InstantComparisonDiffers | server.js:11-28 | Comparing the current instant with midnight of the last usable date agrees with the calendar-day rule on every day except the last usable day, where only the instant of midnight is accepted |
| Eligibility.LastDayRefusedAtNoon | server.js:28 | Born 2015-01-01: the last usable date is 2023-12-31, the calendar-day rule accepts it, the instant comparison at noon that day refuses it |
| Leave.SumMonths | server.js:47-51 | The sum of the continuous periods: no period's months exceed it, and it is zero exactly when every period has zero months |
| Leave.SumMonthsAppend | server.js:48-50 | Adding one more period to the list adds its months to the sum (the step of the accumulation loop) |
| Leave.SumMonthsConcat | server.js:47-51 | The sum over two lists joined is the sum of the two sums |
| Leave.SumMonthsWithout | server.js:47-51 | Removing one period from the list removes exactly its months from the sum |
| Leave.SumMonthsOrderIrrelevant | server.js:47-51 | Any two lists holding the same periods, each as often (equal multisets), have the same sum, so no reordering changes the total |
| Leave.TotalUsedMonths | server.js:44-56 | Months used are the continuous-period sum plus the number of whole 20-day blocks in the non-continuous days: 20 times that number is at most the days and 20 times one more exceeds them |
| Leave.Balance | server.js:58-66 | The outcome is the eligible case with the given total and 36 as maximum; the remaining months are at most 36, add up with the total to 36 when the total is at most 36, and are 0 when the total is 36 or more; the leftover days are below 20 and, added to 20 times the whole months, give back the day count |
| Leave.CalculateParentalLeave | server.js:37-68 | The result is the refusal with the fixed message exactly when the child is not eligible for the given day (including an unparseable birth date); otherwise it is the balance of the total months used, with the loop's accumulator proved equal to the recursive sum |

## Left out

- The HTTP layer is not modelled: the framework setup, static files, the two
  routes, the handler that turns any exception into a 400 response, the port
  and the startup log line. It is transport glue.
- Parsing the `birthDate` string is not modelled. The model takes an
  already-parsed calendar date, or `None` for an invalid one. That leaves out
  the time-zone effect: a date-only ISO string parses as UTC midnight, but its
  fields are read in local time, so west of UTC the birth date shifts to the
  day before.
- Reading the system clock is not modelled: "today" is a parameter.
- Non-integer and non-numeric `months` and day values are not modelled,
  including string concatenation in the `+=`, NaN from a period without
  `months`, and fractional month totals. These values are natural numbers here.
- Dates are modelled without their time value. Comparisons of two dates built
  at local midnight are modelled as calendar order. Daylight-saving
  irregularities of local midnight are not modelled.
- `FromFields` covers day fields 0..31, the only range the source produces.
  Arbitrary overflow of `new Date` fields is not modelled.
- Calendar.FromFields, Eligibility.AgeCutoff and Eligibility.GradeCutoff take
  the year as given. `new Date(y, m, d)` maps years 0..99 to 1900 + y, so for
  birth years -9..90 (age cutoff) and -8..91 (grade cutoff) the source builds a
  date in the 20th century where the model does not. Dates past the end of
  the `Date` range (+275760-09-13) are Invalid Date in the source, and the
  model has no such limit. For a birth from about 275751-09-14 to 275752-12-31
  only the age cutoff is invalid; `age9Date > grade3Date` is then false, so
  the source falls back to the grade cutoff. From birth year 275753 on both
  cutoffs are invalid and the source reports the child ineligible. Neither
  case arises for a real birth date.
- Eligibility.IsEligibleChild decides on the calendar day of `today`, the
  corrected comparison from the Findings table. It does not model the
  instant comparison as written, which refuses the last usable day after its
  first millisecond; Eligibility.IsEligibleAtInstant models that.
- Leave.CalculateParentalLeave decides eligibility on the calendar day of
  `today`. That is the corrected comparison from the Findings table, not the
  instant comparison as written.

## Findings

| source | as written | input that shows it | evidently intended | confidence | as-written member | corrected member |
|---|---|---|---|---|---|---|
| server.js:11-28 | `today <= usageEndDate` compares the current instant, with its time of day, against local midnight at the start of the last usable day | birth date 2015-01-01, checked at 12:00 on 2023-12-31: refused, although 2023-12-31 is the last usable day | the last usable day is included, as the variable's name and the inclusive `<=` say | not executed; medium | Eligibility.LastDayRefusedAtNoon | Eligibility.EligibleBoundary |

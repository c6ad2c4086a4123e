/** The childcare-hours balance: months used in continuous periods plus
    non-continuous days converted at 20 days a month, against a 36-month
    maximum, computed only for an eligible child. */
module Leave {
  import opened Calendar
  import opened Eligibility

  /** One continuous usage period. */
  datatype Period = Period(months: nat)

  /** The request payload. An absent or non-array `continuousMonths` is
      `None`; an absent `nonContinuousDays` is `None`; an unparseable
      `birthDate` is `None`. */
  datatype Request = Request(
    birthDate: Option<Date>,
    continuousMonths: Option<seq<Period>>,
    nonContinuousDays: Option<nat>)

  /** The response: a refusal carrying only its message, or the balance. */
  datatype Outcome =
    | Ineligible(message: string)
    | Eligible(totalUsedMonths: nat, remainingMonths: nat, maxMonths: nat, nonContinuousRemainingDays: nat)

  const MaxMonths: nat := 36
  const DaysPerUsageMonth: nat := 20
  const IneligibleMessage: string := "자녀가 만 9세를 초과했거나 초등학교 3학년을 초과했습니다."

  /** A birth date is either missing or a real calendar date. */
  predicate WellFormed(req: Request)
  {
    req.birthDate.Some? ==> Valid(req.birthDate.value)
  }

  /** The months of all continuous periods together: no period exceeds the
      total, and the total is zero exactly when every period is. */
  function SumMonths(periods: seq<Period>): (total: nat)
    ensures forall i :: 0 <= i < |periods| ==> periods[i].months <= total
    ensures total == 0 <==> forall i :: 0 <= i < |periods| ==> periods[i].months == 0
  {
    if periods == [] then 0
    else
      var rest := SumMonths(periods[1..]);
      assert forall i :: 1 <= i < |periods| ==> periods[i] == periods[1..][i - 1];
      periods[0].months + rest
  }

  lemma {:induction false} SumMonthsAppend(periods: seq<Period>, last: Period)
    ensures SumMonths(periods + [last]) == SumMonths(periods) + last.months
  {
    if periods != [] {
      assert (periods + [last])[1..] == periods[1..] + [last];
      SumMonthsAppend(periods[1..], last);
    }
  }

  /** The sum over two lists of periods is the sum of the two sums. */
  lemma {:induction false} SumMonthsConcat(a: seq<Period>, b: seq<Period>)
    ensures SumMonths(a + b) == SumMonths(a) + SumMonths(b)
  {
    if a != [] {
      assert (a + b)[1..] == a[1..] + b;
      SumMonthsConcat(a[1..], b);
    } else {
      assert a + b == b;
    }
  }

  /** The order of the periods does not affect the total: any two lists
      holding the same periods, each as often, have the same sum. */
  lemma {:induction false} SumMonthsOrderIrrelevant(a: seq<Period>, b: seq<Period>)
    requires multiset(a) == multiset(b)
    ensures SumMonths(a) == SumMonths(b)
    decreases |a|
  {
    if a != [] {
      var first := a[0];
      assert a == [first] + a[1..];
      assert first in multiset(b);
      var j :| 0 <= j < |b| && b[j] == first;
      var rest := b[..j] + b[j + 1..];
      MultisetWithout(b, j);
      assert multiset(a) == multiset(a[1..]) + multiset{first};
      assert multiset(a[1..]) == multiset(rest) by {
        forall x ensures multiset(a[1..])[x] == multiset(rest)[x] {
          assert multiset(a)[x] == multiset(b)[x];
        }
      }
      SumMonthsOrderIrrelevant(a[1..], rest);
      SumMonthsWithout(b, j);
    }
  }

  /** Taking one period out of a list takes its months out of the sum. */
  lemma SumMonthsWithout(b: seq<Period>, j: nat)
    requires j < |b|
    ensures SumMonths(b) == SumMonths(b[..j] + b[j + 1..]) + b[j].months
  {
    assert b == b[..j] + ([b[j]] + b[j + 1..]);
    assert ([b[j]] + b[j + 1..])[1..] == b[j + 1..];
    SumMonthsConcat(b[..j], [b[j]] + b[j + 1..]);
    SumMonthsConcat(b[..j], b[j + 1..]);
  }

  /** Taking one period out of a list takes one occurrence out of its multiset. */
  lemma MultisetWithout(b: seq<Period>, j: nat)
    requires j < |b|
    ensures multiset(b) == multiset(b[..j] + b[j + 1..]) + multiset{b[j]}
  {
    assert b == b[..j] + [b[j]] + b[j + 1..];
  }

  function ContinuousPeriods(req: Request): seq<Period>
  {
    match req.continuousMonths
    case Some(periods) => periods
    case None => []
  }

  function NonContinuousDays(req: Request): nat
  {
    match req.nonContinuousDays
    case Some(days) => days
    case None => 0
  }

  /** Months used: every continuous period's months plus the whole 20-day
      blocks among the non-continuous days. */
  function TotalUsedMonths(req: Request): (total: nat)
    ensures total >= SumMonths(ContinuousPeriods(req))
    ensures DaysPerUsageMonth * (total - SumMonths(ContinuousPeriods(req))) <= NonContinuousDays(req)
    ensures NonContinuousDays(req) < DaysPerUsageMonth * (total - SumMonths(ContinuousPeriods(req)) + 1)
  {
    SumMonths(ContinuousPeriods(req)) + NonContinuousDays(req) / DaysPerUsageMonth
  }

  /** The balance fields for a given usage: the remaining months, capped
      below at zero, and the days left over after the conversion to months. */
  function Balance(totalUsedMonths: nat, nonContinuousDays: nat): (r: Outcome)
    ensures r.Eligible?
    ensures r.totalUsedMonths == totalUsedMonths && r.maxMonths == MaxMonths
    ensures r.remainingMonths <= MaxMonths
    ensures totalUsedMonths <= MaxMonths ==> r.totalUsedMonths + r.remainingMonths == MaxMonths
    ensures totalUsedMonths >= MaxMonths ==> r.remainingMonths == 0
    ensures r.nonContinuousRemainingDays < DaysPerUsageMonth
    ensures DaysPerUsageMonth * (nonContinuousDays / DaysPerUsageMonth) + r.nonContinuousRemainingDays == nonContinuousDays
  {
    var remainingMonths := MaxMonths - totalUsedMonths;
    Eligible(
      totalUsedMonths,
      if remainingMonths < 0 then 0 else remainingMonths,
      MaxMonths,
      if nonContinuousDays != 0 then nonContinuousDays % DaysPerUsageMonth else 0)
  }

  /** `calculateParentalLeave`, with the current date passed in as `today`. */
  method CalculateParentalLeave(req: Request, today: Date) returns (r: Outcome)
    requires WellFormed(req)
    ensures r.Ineligible? <==> !IsEligibleChild(req.birthDate, today)
    ensures r.Ineligible? ==> r.message == IneligibleMessage
    ensures r.Eligible? ==> r.totalUsedMonths == TotalUsedMonths(req)
    ensures r.Eligible? ==> r == Balance(TotalUsedMonths(req), NonContinuousDays(req))
  {
    if !IsEligibleChild(req.birthDate, today) {
      return Ineligible(IneligibleMessage);
    }

    var totalUsedMonths: nat := 0;

    match req.continuousMonths {
      case Some(periods) =>
        for i := 0 to |periods|
          invariant totalUsedMonths == SumMonths(periods[..i])
        {
          assert periods[..i + 1] == periods[..i] + [periods[i]];
          SumMonthsAppend(periods[..i], periods[i]);
          totalUsedMonths := totalUsedMonths + periods[i].months;
        }
        assert periods[..|periods|] == periods;
      case None =>
    }

    match req.nonContinuousDays {
      case Some(days) =>
        if days != 0 {
          totalUsedMonths := totalUsedMonths + days / DaysPerUsageMonth;
        }
      case None =>
    }

    r := Balance(totalUsedMonths, NonContinuousDays(req));
  }

  /** Requests worked through by the calculator. */
  method Examples()
  {
    var today := Date(2025, 6, 1);
    var r := CalculateParentalLeave(
      Request(Some(Date(2020, 1, 1)), Some([Period(6), Period(6)]), Some(25)), today);
    assert r == Eligible(13, 23, 36, 5);

    r := CalculateParentalLeave(Request(Some(Date(2000, 1, 1)), None, None), today);
    assert r == Ineligible(IneligibleMessage);

    r := CalculateParentalLeave(Request(None, Some([Period(1)]), None), today);
    assert r == Ineligible(IneligibleMessage);

    r := CalculateParentalLeave(Request(Some(Date(2020, 1, 1)), None, Some(45)), today);
    assert r == Eligible(2, 34, 36, 5);

    r := CalculateParentalLeave(Request(Some(Date(2020, 1, 1)), Some([Period(40)]), None), today);
    assert r == Eligible(40, 0, 36, 0);
  }
}

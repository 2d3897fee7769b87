/** The due dates of a recurring commitment, one per installment. */
module Recurring {
  import opened Wrappers
  import opened Text
  import opened Calendar

  datatype RecurringRequest = RecurringRequest(title: string, kind: string, amountMinor: int, currency: string,
                                               firstDueDate: string, period: string, count: int)

  const MAX_COUNT: int := 60

  /** monthsPerPeriod; weekly steps are not months. */
  function MonthsPerPeriod(period: string): Option<nat> {
    match period
    case "weekly" => Some(0)
    case "monthly" => Some(1)
    case "quarterly" => Some(3)
    case "yearly" => Some(12)
    case _ => None
  }

  /** The due date of installment k. */
  function Due(first: Date, months: nat, k: nat): (r: Date)
    requires Valid(first)
    ensures Valid(r)
  {
    if months == 0 then AddDays(first, 7 * k) else AddMonths(first, months * k)
  }

  /** The text of installment k's due date. */
  predicate IsDueText(first: Date, months: nat, k: nat, text: string)
    requires Valid(first)
  {
    Due(first, months, k).year >= 0 && text == FormatDate(Due(first, months, k))
  }

  /** recurringDates. */
  method RecurringDates(r: RecurringRequest) returns (result: Result<seq<string>, string>)
    ensures result.Ok? <==>
              && Trim(r.title) != "" && (r.kind == "payable" || r.kind == "receivable") && Trim(r.currency) != ""
              && r.amountMinor > 0 && 1 <= r.count <= 60 && ParseDate(r.firstDueDate).Some?
              && (r.period == "weekly" || r.period == "monthly" || r.period == "quarterly" || r.period == "yearly")
    ensures result.Ok? ==>
              var first := ParseDate(r.firstDueDate).value;
              var months := if r.period == "weekly" then 0 else if r.period == "monthly" then 1
                            else if r.period == "quarterly" then 3 else 12;
              && |result.value| == r.count
              && forall k: nat :: k < r.count ==>
                   IsDueText(first, months, k, result.value[k])
  {
    if Blank(r.title) { return Err("label is required"); }
    if r.kind != "payable" && r.kind != "receivable" { return Err("type must be payable or receivable"); }
    if Blank(r.currency) { return Err("currency is required"); }
    if r.amountMinor <= 0 { return Err("amount_minor must be positive"); }
    if r.count < 1 || r.count > MAX_COUNT { return Err("count must be between 1 and 60"); }
    var months := MonthsPerPeriod(r.period);
    if months.None? { return Err("period must be weekly, monthly, quarterly or yearly"); }
    var first := ParseDate(r.firstDueDate);
    if first.None? { return Err("first_due_date must use YYYY-MM-DD"); }
    var dates := DueTexts(first.value, months.value, r.count);
    result := Ok(dates);
  }

  method DueTexts(first: Date, months: nat, count: nat) returns (dates: seq<string>)
    requires Valid(first) && first.year >= 0
    ensures |dates| == count
    ensures forall k: nat :: k < count ==> IsDueText(first, months, k, dates[k])
  {
    hide Due;
    hide Before;
    hide FormatDate;
    dates := [];
    for index := 0 to count
      invariant |dates| == index
      invariant forall k: nat :: k < index ==> IsDueText(first, months, k, dates[k])
    {
      DueNotEarlier(first, months, index);
      var due := DueOn(first, months, index);
      dates := dates + [FormatDate(due)];
      assert IsDueText(first, months, index, dates[index]);
      hide IsDueText;
    }
  }

  method DueOn(first: Date, months: nat, index: nat) returns (due: Date)
    requires Valid(first)
    ensures due == Due(first, months, index)
  {
    if months == 0 {
      due := AddDays(first, 7 * index);
    } else {
      due := AddMonths(first, months * index);
    }
  }

  lemma DueNotEarlier(first: Date, months: nat, k: nat)
    requires Valid(first)
    ensures Due(first, months, k) == first || Before(first, Due(first, months, k))
    ensures first.year <= Due(first, months, k).year
  {
    FirstInstallment(first, months);
    if k > 0 { DueAscends(first, months, 0, k); }
    hide Due;
  }

  lemma Scaled(months: nat, j: nat, k: nat)
    requires months > 0 && j < k
    ensures months * j < months * k
  {
  }

  lemma FirstInstallment(first: Date, months: nat)
    requires Valid(first)
    ensures Due(first, months, 0) == first
  {
    if months > 0 {
      AddMonthsClamps(first, 0);
      assert months * 0 == 0;
      MonthUnique(AddMonths(first, 0), first);
    }
  }

  /** Installments fall due in strictly ascending order. */
  lemma DueAscends(first: Date, months: nat, j: nat, k: nat)
    requires Valid(first) && j < k
    ensures Before(Due(first, months, j), Due(first, months, k))
  {
    if months == 0 {
      AddDaysTwice(first, 7 * j, 7 * (k - j));
    } else {
      Scaled(months, j, k);
      AddMonthsClamps(first, months * j);
      AddMonthsClamps(first, months * k);
      MonthOrder(AddMonths(first, months * j), AddMonths(first, months * k));
    }
  }

  /** Weekly installments are exactly seven days apart, across month ends and leap years. */
  lemma WeeklySpacing(first: Date, k: nat)
    requires Valid(first)
    ensures DayNumber(Due(first, 0, k)) == DayNumber(first) + 7 * k
    ensures Due(first, 0, k + 1) == AddDays(Due(first, 0, k), 7)
  {
    hide AddDays;
    hide DayNumber;
    hide AddMonths;
    AddDaysNumber(first, 7 * k);
    AddDaysTwice(first, 7 * k, 7);
  }

  /**
   Month steps never drift: installment k falls k steps after the first month, on the first
   installment's day or the last day of a shorter month, and a start on a 31st stays at month end.
   */
  lemma MonthlyNeverDrifts(first: Date, months: nat, k: nat)
    requires Valid(first) && months > 0
    ensures var due := Due(first, months, k);
            && MonthNumber(due) == MonthNumber(first) + months * k
            && due.day == Min(first.day, DaysIn(due.year, due.month))
            && (first.day == 31 ==> due.day == DaysIn(due.year, due.month))
  {
    AddMonthsClamps(first, months * k);
  }
}

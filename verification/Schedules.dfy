/** When a goal automation is due, over the real calendar (accounting/ledger/goal_automations.py). */
module Schedules {
  import opened Frame

  // ---------- the calendar ----------

  datatype Date = Date(year: int, month: int, day: int)

  predicate IsLeap(year: int) {
    year % 4 == 0 && (year % 100 != 0 || year % 400 == 0)
  }

  function DaysInMonth(year: int, month: int): int {
    if month == 2 then (if IsLeap(year) then 29 else 28)
    else if month == 4 || month == 6 || month == 9 || month == 11 then 30
    else 31
  }

  predicate IsDate(d: Date) {
    1 <= d.year && 1 <= d.month <= 12 && 1 <= d.day <= DaysInMonth(d.year, d.month)
  }

  function DaysBeforeMonth(year: int, month: int): int
    requires 1 <= month
    decreases month
  {
    if month == 1 then 0 else DaysBeforeMonth(year, month - 1) + DaysInMonth(year, month - 1)
  }

  function DaysBeforeYear(year: int): int
    requires 1 <= year
    decreases year
  {
    if year == 1 then 0 else DaysBeforeYear(year - 1) + if IsLeap(year - 1) then 366 else 365
  }

  /** Days counted from the first of January of year one, which is day one. */
  function Ordinal(d: Date): int
    requires IsDate(d)
  {
    DaysBeforeYear(d.year) + DaysBeforeMonth(d.year, d.month) + d.day
  }

  predicate Before(a: Date, b: Date) {
    a.year < b.year || (a.year == b.year && (a.month < b.month || (a.month == b.month && a.day < b.day)))
  }

  lemma {:induction false} MonthsGrow(year: int, m: int, n: int)
    requires 1 <= m < n
    ensures DaysBeforeMonth(year, m) + DaysInMonth(year, m) <= DaysBeforeMonth(year, n)
    decreases n
  {
    if m < n - 1 {
      MonthsGrow(year, m, n - 1);
    }
  }

  lemma YearIsTwelveMonths(year: int)
    ensures DaysBeforeMonth(year, 12) + 31 == if IsLeap(year) then 366 else 365
  {
    assert DaysBeforeMonth(year, 2) == 31;
    assert DaysBeforeMonth(year, 4) == 31 + DaysInMonth(year, 2) + 31 by {
      assert DaysBeforeMonth(year, 3) == 31 + DaysInMonth(year, 2);
    }
    assert DaysBeforeMonth(year, 6) == DaysBeforeMonth(year, 4) + 30 + 31 by {
      assert DaysBeforeMonth(year, 5) == DaysBeforeMonth(year, 4) + 30;
    }
    assert DaysBeforeMonth(year, 8) == DaysBeforeMonth(year, 6) + 30 + 31 by {
      assert DaysBeforeMonth(year, 7) == DaysBeforeMonth(year, 6) + 30;
    }
    assert DaysBeforeMonth(year, 10) == DaysBeforeMonth(year, 8) + 31 + 30 by {
      assert DaysBeforeMonth(year, 9) == DaysBeforeMonth(year, 8) + 31;
    }
    assert DaysBeforeMonth(year, 12) == DaysBeforeMonth(year, 10) + 31 + 30 by {
      assert DaysBeforeMonth(year, 11) == DaysBeforeMonth(year, 10) + 31;
    }
  }

  lemma {:induction false} YearsGrow(y: int, z: int)
    requires 1 <= y < z
    ensures DaysBeforeYear(y) + (if IsLeap(y) then 366 else 365) <= DaysBeforeYear(z)
    decreases z
  {
    if y < z - 1 {
      YearsGrow(y, z - 1);
    }
  }

  lemma WithinYear(d: Date)
    requires IsDate(d)
    ensures 1 <= DaysBeforeMonth(d.year, d.month) + d.day <= if IsLeap(d.year) then 366 else 365
  {
    YearIsTwelveMonths(d.year);
    if d.month < 12 {
      MonthsGrow(d.year, d.month, 12);
    }
    if 1 < d.month {
      MonthsGrow(d.year, 1, d.month);
    }
  }

  /** Comparing dates and comparing day counts is the same thing. */
  lemma OrdinalOrders(a: Date, b: Date)
    requires IsDate(a) && IsDate(b)
    ensures Before(a, b) <==> Ordinal(a) < Ordinal(b)
    ensures a == b <==> Ordinal(a) == Ordinal(b)
  {
    if Before(a, b) {
      EarlierIsLess(a, b);
    } else if Before(b, a) {
      EarlierIsLess(b, a);
    }
  }

  lemma EarlierIsLess(a: Date, b: Date)
    requires IsDate(a) && IsDate(b) && Before(a, b)
    ensures Ordinal(a) < Ordinal(b)
  {
    WithinYear(a);
    WithinYear(b);
    if a.year < b.year {
      YearsGrow(a.year, b.year);
    } else if a.month < b.month {
      MonthsGrow(a.year, a.month, b.month);
    }
  }

  // ---------- schedules ----------

  datatype Frequency = Daily | Weekly | Biweekly | Monthly

  datatype Automation = Automation(start: Option<Date>, frequency: Option<Frequency>, end: Option<Date>)

  predicate ValidAutomation(a: Automation) {
    (a.start.Some? ==> IsDate(a.start.value)) && (a.end.Some? ==> IsDate(a.end.value))
  }

  const MAX_DAY_OF_MONTH := 28

  function StepDays(frequency: Frequency): int
    requires !frequency.Monthly?
  {
    match frequency
    case Daily => 1
    case Weekly => 7
    case Biweekly => 14
  }

  function MonthlyDay(start: Date): int {
    if start.day < MAX_DAY_OF_MONTH then start.day else MAX_DAY_OF_MONTH
  }

  /**
   * A day on the schedule: the start and every, every seventh or every fourteenth day from it on, or from the start on
   * the start's day of each month, the 28th if that is later.
   */
  ghost predicate Scheduled(start: Date, frequency: Frequency, ordinal: int)
    requires IsDate(start)
  {
    match frequency
    case Daily => Ordinal(start) <= ordinal
    case Weekly => Ordinal(start) <= ordinal && (ordinal - Ordinal(start)) % 7 == 0
    case Biweekly => Ordinal(start) <= ordinal && (ordinal - Ordinal(start)) % 14 == 0
    case Monthly => exists d :: MonthlyOn(start, d) && ordinal == Ordinal(d)
  }

  ghost predicate MonthlyOn(start: Date, d: Date) {
    IsDate(d) && !Before(d, start) && (if start.day <= 28 then d.day == start.day else d.day == 28)
  }

  lemma StepScheduled(start: Date, frequency: Frequency, ordinal: int)
    requires IsDate(start) && !frequency.Monthly?
    ensures Scheduled(start, frequency, ordinal)
      <==> Ordinal(start) <= ordinal && (ordinal - Ordinal(start)) % StepDays(frequency) == 0
  {
  }

  function Earlier(a: Date, b: Date): Date {
    if Before(b, a) then b else a
  }

  /** The monthly schedule's latest day on or before a date, as the code finds it: this month, or else the last. */
  function MonthlyOccurrence(start: Date, asOf: Date): (occurrence: Option<Date>)
    requires IsDate(start) && IsDate(asOf) && !Before(asOf, start)
    ensures occurrence.Some? ==> IsDate(occurrence.value)
  {
    var day := MonthlyDay(start);
    var candidate :=
      if asOf.day >= day then Date(asOf.year, asOf.month, day)
      else if asOf.month == 1 then Date(asOf.year - 1, 12, day)
      else Date(asOf.year, asOf.month - 1, day);
    if Before(candidate, start) then None else Some(candidate)
  }

  /** The most recent day on the schedule, if it has begun; counted in days. */
  function NextRecurringOccurrence(a: Automation, asOf: Date): Option<int>
    requires ValidAutomation(a) && IsDate(asOf)
  {
    if a.start.None? || a.frequency.None? then None
    else
      var start, frequency := a.start.value, a.frequency.value;
      var effective := if a.end.Some? then Earlier(asOf, a.end.value) else asOf;
      if Before(effective, start) then None
      else if frequency.Monthly? then
        var occurrence := MonthlyOccurrence(start, effective);
        if occurrence.Some? then Some(Ordinal(occurrence.value)) else None
      else
        var periods := (Ordinal(effective) - Ordinal(start)) / StepDays(frequency);
        Some(Ordinal(start) + periods * StepDays(frequency))
  }

  /** No scheduled day of the month lies between what the code finds and the date asked about. */
  lemma MonthlyIsLatest(start: Date, asOf: Date, d: Date)
    requires IsDate(start) && IsDate(asOf) && !Before(asOf, start)
    requires IsDate(d) && d.day == MonthlyDay(start) && !Before(d, start) && !Before(asOf, d)
    ensures MonthlyOccurrence(start, asOf).Some? && !Before(MonthlyOccurrence(start, asOf).value, d)
  {
  }

  lemma StepsAreLatest(start: int, effective: int, step: int, k: nat)
    requires start <= effective && step > 0 && start + k * step <= effective
    ensures var periods := (effective - start) / step;
      0 <= periods && start + periods * step <= effective && k <= periods && k * step <= periods * step
  {
    var periods := (effective - start) / step;
    StepsOvershoot(effective - start, step, k);
    MoreSteps(k, periods, step);
  }

  lemma StepsOvershoot(gap: int, step: int, k: nat)
    requires gap >= 0 && step > 0
    ensures k > gap / step ==> k * step > gap
  {
    if k > gap / step {
      MoreSteps(gap / step + 1, k, step);
      assert (gap / step + 1) * step == gap / step * step + step;
    }
  }

  lemma MoreSteps(j: int, k: int, step: int)
    requires j <= k && step > 0
    ensures j * step <= k * step
  {
  }

  /**
   * What is returned is a scheduled day, on or before the date asked about and the schedule's end, and no later
   * scheduled day is; nothing is returned exactly when no scheduled day is that early.
   */
  lemma OccurrenceIsTheLatest(a: Automation, asOf: Date)
    requires ValidAutomation(a) && IsDate(asOf) && a.start.Some? && a.frequency.Some?
    ensures var limit := Ordinal(if a.end.Some? then Earlier(asOf, a.end.value) else asOf);
      var found := NextRecurringOccurrence(a, asOf);
      && limit <= Ordinal(asOf) && (a.end.Some? ==> limit <= Ordinal(a.end.value))
      && (found.Some? ==> found.value <= limit && Scheduled(a.start.value, a.frequency.value, found.value))
      && (forall o :: Scheduled(a.start.value, a.frequency.value, o) && o <= limit ==> found.Some? && o <= found.value)
  {
    var start, frequency := a.start.value, a.frequency.value;
    var effective := if a.end.Some? then Earlier(asOf, a.end.value) else asOf;
    OrdinalOrders(asOf, effective);
    OrdinalOrders(effective, start);
    if a.end.Some? {
      OrdinalOrders(effective, a.end.value);
    }
    if frequency.Monthly? {
      MonthlyOccurrenceIsTheLatest(start, effective, NextRecurringOccurrence(a, asOf));
    } else {
      StepOccurrenceIsTheLatest(start, frequency, effective, NextRecurringOccurrence(a, asOf));
    }
  }

  function MonthlyOrdinal(start: Date, effective: Date): Option<int>
    requires IsDate(start) && IsDate(effective)
  {
    if Before(effective, start) then None
    else
      var occurrence := MonthlyOccurrence(start, effective);
      if occurrence.Some? then Some(Ordinal(occurrence.value)) else None
  }

  lemma MonthlyOccurrenceIsTheLatest(start: Date, effective: Date, found: Option<int>)
    requires IsDate(start) && IsDate(effective)
    requires found == MonthlyOrdinal(start, effective)
    ensures found.Some? ==> found.value <= Ordinal(effective) && Scheduled(start, Monthly, found.value)
    ensures forall o :: Scheduled(start, Monthly, o) && o <= Ordinal(effective) ==> found.Some? && o <= found.value
  {
    if found.Some? {
      OrdinalOrders(effective, MonthlyOccurrence(start, effective).value);
      assert MonthlyOn(start, MonthlyOccurrence(start, effective).value);
    }
    forall o | Scheduled(start, Monthly, o) && o <= Ordinal(effective) ensures found.Some? && o <= found.value {
      var d :| MonthlyOn(start, d) && o == Ordinal(d);
      MonthlyScheduledIsCovered(start, effective, found, d);
    }
  }

  lemma MonthlyScheduledIsCovered(start: Date, effective: Date, found: Option<int>, d: Date)
    requires IsDate(start) && IsDate(effective)
    requires found == MonthlyOrdinal(start, effective)
    requires IsDate(d) && d.day == MonthlyDay(start) && !Before(d, start) && Ordinal(d) <= Ordinal(effective)
    ensures found.Some? && Ordinal(d) <= found.value
  {
    OrdinalOrders(effective, d);
    OrdinalOrders(d, start);
    OrdinalOrders(effective, start);
    MonthlyIsLatest(start, effective, d);
    OrdinalOrders(MonthlyOccurrence(start, effective).value, d);
  }

  lemma StepOccurrenceIsTheLatest(start: Date, frequency: Frequency, effective: Date, found: Option<int>)
    requires IsDate(start) && IsDate(effective) && !frequency.Monthly?
    requires found == if Before(effective, start) then None
                      else Some(Ordinal(start)
                                + (Ordinal(effective) - Ordinal(start)) / StepDays(frequency) * StepDays(frequency))
    ensures found.Some? ==> found.value <= Ordinal(effective) && Scheduled(start, frequency, found.value)
    ensures forall o :: Scheduled(start, frequency, o) && o <= Ordinal(effective) ==> found.Some? && o <= found.value
  {
    OrdinalOrders(effective, start);
    var step, gap := StepDays(frequency), Ordinal(effective) - Ordinal(start);
    if found.Some? {
      StepsAreLatest(Ordinal(start), Ordinal(effective), step, 0);
      MultipleOfStep(gap / step, step);
      StepScheduled(start, frequency, found.value);
    }
    forall o | Scheduled(start, frequency, o) && o <= Ordinal(effective) ensures found.Some? && o <= found.value {
      StepScheduled(start, frequency, o);
      var k: nat := (o - Ordinal(start)) / step;
      assert o == Ordinal(start) + k * step;
      StepsAreLatest(Ordinal(start), Ordinal(effective), step, k);
    }
  }

  lemma MultipleOfStep(k: int, step: int)
    requires k >= 0 && (step == 1 || step == 7 || step == 14)
    ensures (k * step) % step == 0
  {
  }
}

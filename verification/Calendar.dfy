/** The proleptic Gregorian calendar in UTC, with the parts of Go's `time` the program uses:
    `AddDate`, `Truncate(time.Hour).Add` and comparison. */
module Calendar {

  datatype Date = Date(year: nat, month: nat, day: nat)

  predicate IsLeap(y: nat) {
    y % 4 == 0 && (y % 100 != 0 || y % 400 == 0)
  }

  function DaysIn(y: nat, m: nat): (n: nat)
    requires 1 <= m <= 12
    ensures 28 <= n <= 31
  {
    if m == 2 then (if IsLeap(y) then 29 else 28)
    else if m == 4 || m == 6 || m == 9 || m == 11 then 30
    else 31
  }

  predicate Valid(d: Date) {
    1 <= d.month <= 12 && 1 <= d.day <= DaysIn(d.year, d.month)
  }

  /** Months counted from January of year 0. */
  function MonthIndex(y: nat, m: nat): (k: nat)
    requires 1 <= m <= 12
    ensures k / 12 == y && k % 12 + 1 == m
  {
    12 * y + m - 1
  }

  function MonthLength(k: nat): (n: nat)
    ensures 28 <= n <= 31
  {
    DaysIn(k / 12, k % 12 + 1)
  }

  /** Days before month `k`. */
  function MonthBegin(k: nat): nat {
    if k == 0 then 0 else MonthBegin(k - 1) + MonthLength(k - 1)
  }

  lemma MonthStep(k: nat)
    ensures MonthBegin(0) == 0
    ensures MonthBegin(k + 1) == MonthBegin(k) + MonthLength(k)
  {
  }

  lemma {:induction false} MonthBeginMonotone(k: nat, l: nat)
    requires k <= l
    ensures MonthBegin(k) + 28 * (l - k) <= MonthBegin(l)
    decreases l
  {
    if k < l {
      MonthBeginMonotone(k, l - 1);
    }
  }

  function MonthOf(d: Date): nat
    requires Valid(d)
  {
    MonthIndex(d.year, d.month)
  }

  /** The number of the day. */
  function Ordinal(d: Date): nat
    requires Valid(d)
  {
    MonthBegin(MonthOf(d)) + d.day
  }

  predicate Before(a: Date, b: Date) {
    || a.year < b.year
    || (a.year == b.year && (a.month < b.month || (a.month == b.month && a.day < b.day)))
  }

  lemma OrdinalIncreases(a: Date, b: Date)
    requires Valid(a) && Valid(b) && Before(a, b)
    ensures Ordinal(a) < Ordinal(b)
  {
    hide MonthBegin;
    var k := MonthOf(a);
    if a.year != b.year || a.month != b.month {
      assert k + 1 <= MonthOf(b);
      MonthStep(k);
      MonthBeginMonotone(k + 1, MonthOf(b));
    }
  }

  /** Day numbers order dates as the calendar does, so they tell dates apart. */
  lemma OrdinalOrder(a: Date, b: Date)
    requires Valid(a) && Valid(b)
    ensures Before(a, b) <==> Ordinal(a) < Ordinal(b)
    ensures a == b <==> Ordinal(a) == Ordinal(b)
  {
    hide Ordinal, DaysIn;
    if Before(a, b) {
      OrdinalIncreases(a, b);
    } else if Before(b, a) {
      OrdinalIncreases(b, a);
    }
  }

  lemma MonthParts(k: nat)
    ensures MonthIndex(k / 12, k % 12 + 1) == k
  {
  }

  /** A day of month `k`. */
  function DayOf(k: nat, day: nat): (d: Date)
    requires 1 <= day <= MonthLength(k)
    ensures Valid(d) && MonthOf(d) == k && Ordinal(d) == MonthBegin(k) + day
  {
    hide MonthBegin, DaysIn, MonthIndex;
    MonthParts(k);
    Date(k / 12, k % 12 + 1, day)
  }

  /** A day of month `k`, as `time.Date` normalises it: a day past the end of the month runs
      over into the next. */
  function Normalised(k: nat, day: nat): (d: Date)
    requires 1 <= day <= 31
    ensures Valid(d)
    ensures Ordinal(d) == MonthBegin(k) + day
  {
    hide MonthBegin, MonthLength, Valid, Ordinal, MonthOf;
    MonthStep(k);
    if day <= MonthLength(k) then DayOf(k, day) else DayOf(k + 1, day - MonthLength(k))
  }

  lemma DateParts(d: Date)
    requires Valid(d)
    ensures 1 <= d.day <= MonthLength(MonthOf(d))
    ensures Ordinal(d) == MonthBegin(MonthOf(d)) + d.day
  {
  }

  /** The last day before month `k`. */
  function LastDayBefore(k: nat): (d: Date)
    requires MonthBegin(k) > 0
    ensures Valid(d) && Ordinal(d) == MonthBegin(k)
  {
    hide MonthBegin, MonthLength, MonthOf, MonthIndex, DaysIn, Ordinal, Valid;
    MonthStep(0);
    MonthStep(k - 1);
    DayOf(k - 1, MonthLength(k - 1))
  }

  /** `AddDate(0, 0, -1)`: day 0 of a month is the last day of the month before. */
  function PreviousDay(d: Date): (p: Date)
    requires Valid(d) && Ordinal(d) > 1
    ensures Valid(p) && Ordinal(p) == Ordinal(d) - 1
  {
    hide MonthBegin, MonthLength, MonthOf, MonthIndex, DaysIn, Ordinal, Valid;
    var k := MonthOf(d);
    DateParts(d);
    if d.day > 1 then DayOf(k, d.day - 1)
    else LastDayBefore(k)
  }

  function NextDay(d: Date): (n: Date)
    requires Valid(d)
    ensures Valid(n) && Ordinal(n) == Ordinal(d) + 1
  {
    hide MonthBegin, MonthLength, MonthOf, MonthIndex, DaysIn, Ordinal, Valid;
    var k := MonthOf(d);
    MonthStep(k);
    DateParts(d);
    if d.day < MonthLength(k) then DayOf(k, d.day + 1) else DayOf(k + 1, 1)
  }

  /** An instant to the hour, in UTC. */
  datatype Time = Time(date: Date, hour: nat)

  predicate ValidTime(t: Time) {
    Valid(t.date) && t.hour < 24
  }

  predicate NotAfter(a: Time, b: Time)
    requires ValidTime(a) && ValidTime(b)
  {
    Ordinal(a.date) < Ordinal(b.date) || (a.date == b.date && a.hour <= b.hour)
  }

  /** The hour of the day after some hours, and whether a day has passed. */
  lemma HourWraps(hour: nat, k: nat)
    requires hour < 24 && k < 24
    ensures (hour + k) % 24 == if hour + k < 24 then hour + k else hour + k - 24
  {
  }

  /** The hours from the beginning of time. */
  function HourNumber(t: Time): int
    requires ValidTime(t)
  {
    24 * Ordinal(t.date) + t.hour
  }

  lemma HourNumberAt(t: Time, days: nat)
    requires ValidTime(t) && Ordinal(t.date) == days
    ensures HourNumber(t) == 24 * days + t.hour
  {
  }

  /** Adding less than a day to an instant. */
  function AddHours(t: Time, k: nat): (r: Time)
    requires ValidTime(t) && k < 24
    ensures ValidTime(r) && r.hour == (t.hour + k) % 24
    ensures HourNumber(r) == HourNumber(t) + k
  {
    hide Ordinal, Valid, NextDay, HourNumber;
    HourWraps(t.hour, k);
    HourNumberAt(t, Ordinal(t.date));
    if t.hour + k < 24 then
      var r := Time(t.date, t.hour + k);
      HourNumberAt(r, Ordinal(t.date));
      r
    else
      var r := Time(NextDay(t.date), t.hour + k - 24);
      HourNumberAt(r, Ordinal(t.date) + 1);
      r
  }

  /* ---- the three-month trial ---- */

  const TRIAL_MONTHS: nat := 3

  /** `AddDate(0, 3, 0)`: the same day three months on, normalised. */
  function AddTrial(d: Date): (e: Date)
    requires Valid(d)
    ensures Valid(e)
  {
    Normalised(MonthOf(d) + TRIAL_MONTHS, d.day)
  }

  lemma QuarterLength(k: nat)
    ensures MonthBegin(k + 3) == MonthBegin(k) + MonthLength(k) + MonthLength(k + 1) + MonthLength(k + 2)
  {
    MonthStep(k);
    MonthStep(k + 1);
    MonthStep(k + 2);
  }

  lemma LengthOf(k: nat)
    ensures var m, n := k % 12, MonthLength(k);
            if m == 1 then 28 <= n <= 29
            else if m == 3 || m == 5 || m == 8 || m == 10 then n == 30
            else n == 31
  {
  }

  /** The Gregorian rule. */
  lemma LeapFebruary(y: nat)
    ensures DaysIn(y, 2) == 29 <==> y % 4 == 0 && (y % 100 != 0 || y % 400 == 0)
    ensures DaysIn(y, 2) == 28 || DaysIn(y, 2) == 29
  {
  }

  lemma MonthAfter(k: nat)
    ensures (k + 1) % 12 == if k % 12 == 11 then 0 else k % 12 + 1
  {
  }

  lemma QuarterBounds(k: nat)
    ensures 89 <= MonthLength(k) + MonthLength(k + 1) + MonthLength(k + 2) <= 92
  {
    hide MonthLength;
    MonthAfter(k);
    MonthAfter(k + 1);
    LengthOf(k);
    LengthOf(k + 1);
    LengthOf(k + 2);
  }

  /** A trial lasts as long as the three months from its own. */
  lemma TrialSpan(d: Date)
    requires Valid(d)
    ensures Ordinal(AddTrial(d)) - Ordinal(d)
         == MonthLength(MonthOf(d)) + MonthLength(MonthOf(d) + 1) + MonthLength(MonthOf(d) + 2)
  {
    hide MonthBegin, MonthLength;
    QuarterLength(MonthOf(d));
  }

  /** A trial lasts 89 to 92 days, for every date. */
  lemma TrialLength(d: Date)
    requires Valid(d)
    ensures 89 <= Ordinal(AddTrial(d)) - Ordinal(d) <= 92
  {
    hide MonthBegin, MonthLength, Ordinal, AddTrial;
    TrialSpan(d);
    QuarterBounds(MonthOf(d));
  }

  /** Both bounds are met in every common year: from 1 February and from 1 June. */
  lemma TrialLengthIsTight(y: nat)
    requires !IsLeap(y)
    ensures Ordinal(AddTrial(Date(y, 2, 1))) - Ordinal(Date(y, 2, 1)) == 89
    ensures Ordinal(AddTrial(Date(y, 6, 1))) - Ordinal(Date(y, 6, 1)) == 92
  {
    hide MonthLength, Ordinal, AddTrial;
    TrialSpan(Date(y, 2, 1));
    FromFebruary(y);
    TrialSpan(Date(y, 6, 1));
    FromJune(y);
  }

  lemma FromFebruary(y: nat)
    requires !IsLeap(y)
    ensures var k := MonthIndex(y, 2); MonthLength(k) + MonthLength(k + 1) + MonthLength(k + 2) == 89
  {
    hide MonthLength;
    CommonFebruary(y);
    MonthAfter(MonthIndex(y, 2));
    MonthAfter(MonthIndex(y, 2) + 1);
    LengthOf(MonthIndex(y, 2) + 1);
    LengthOf(MonthIndex(y, 2) + 2);
  }

  lemma FromJune(y: nat)
    ensures var k := MonthIndex(y, 6); MonthLength(k) + MonthLength(k + 1) + MonthLength(k + 2) == 92
  {
    hide MonthLength;
    MonthAfter(MonthIndex(y, 6));
    MonthAfter(MonthIndex(y, 6) + 1);
    LengthOf(MonthIndex(y, 6));
    LengthOf(MonthIndex(y, 6) + 1);
    LengthOf(MonthIndex(y, 6) + 2);
  }

  lemma CommonFebruary(y: nat)
    requires !IsLeap(y)
    ensures MonthLength(MonthIndex(y, 2)) == 28
  {
  }

  lemma TrialOrdinal(d: Date)
    requires Valid(d)
    ensures Ordinal(AddTrial(d)) == MonthBegin(MonthOf(d) + TRIAL_MONTHS) + d.day
  {
    hide MonthBegin, MonthOf, Ordinal;
  }

  lemma MonthsInOrder(a: Date, b: Date)
    requires Valid(a) && Valid(b) && Ordinal(a) <= Ordinal(b)
    ensures MonthOf(a) < MonthOf(b) || (MonthOf(a) == MonthOf(b) && a.day <= b.day)
  {
    hide Ordinal, DaysIn;
    OrdinalOrder(a, b);
  }

  /** How the trial ends of two days compare: the earlier day's is past the later's only when
      they lie in neighbouring months and the earlier day overruns its target month. */
  lemma TrialDates(a: Date, b: Date)
    requires Valid(a) && Valid(b) && Ordinal(a) <= Ordinal(b)
    ensures MonthOf(b) == MonthOf(a) + 1 ==>
      Ordinal(AddTrial(a)) - Ordinal(AddTrial(b)) == a.day - MonthLength(MonthOf(a) + TRIAL_MONTHS) - b.day
    ensures MonthOf(b) != MonthOf(a) + 1 ==>
      if a == b then AddTrial(a) == AddTrial(b) else Ordinal(AddTrial(a)) < Ordinal(AddTrial(b))
  {
    hide MonthBegin, DaysIn, MonthLength, MonthOf, MonthIndex, Ordinal, AddTrial;
    var k, l := MonthOf(a), MonthOf(b);
    OrdinalOrder(a, b);
    MonthsInOrder(a, b);
    TrialOrdinal(a);
    TrialOrdinal(b);
    DateParts(a);
    DateParts(b);
    MonthStep(k + 3);
    if k + 2 <= l {
      MonthBeginMonotone(k + 4, l + 3);
    }
  }

  lemma FebruaryToMarch2023()
    ensures MonthIndex(2022, 11) + TRIAL_MONTHS == MonthIndex(2023, 2) == 24277
    ensures MonthIndex(2022, 12) + TRIAL_MONTHS == MonthIndex(2023, 3) == 24278
    ensures MonthLength(24277) == 28
  {
  }

  /** 30 November 2022 against 1 December 2022: the later trial ends a day earlier. */
  lemma TrialNotMonotone()
    ensures AddTrial(Date(2022, 11, 30)) == Date(2023, 3, 2)
    ensures AddTrial(Date(2022, 12, 1)) == Date(2023, 3, 1)
    ensures Before(Date(2022, 11, 30), Date(2022, 12, 1))
  {
    hide MonthLength;
    FebruaryToMarch2023();
    assert DayOf(24278, 2) == Date(2023, 3, 2) by {
      LengthOf(24278);
    }
    TrialsEndTogether();
  }

  /** A day less, and both end on the same date. */
  lemma TrialsEndTogether()
    ensures AddTrial(Date(2022, 11, 29)) == AddTrial(Date(2022, 12, 1)) == Date(2023, 3, 1)
  {
    hide MonthLength;
    FebruaryToMarch2023();
    LengthOf(24278);
    assert DayOf(24278, 1) == Date(2023, 3, 1);
  }
}

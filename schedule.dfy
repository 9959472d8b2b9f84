/**
 * The scheduling rules: how a repeating task's due date moves on
 * (`updateRepeatingTodos`) and how a date is classified against today
 * (`markExpiredTodos`, `markTodayTodos`). `today` is the current civil date
 * that `new Date()` with `setHours(0, 0, 0, 0)` stands for.
 */
module Schedule {
  import opened CivilDates
  import opened DateText
  import opened Tasks

  // ---------------------------------------------------------------------
  // Recurrence
  // ---------------------------------------------------------------------

  /**
   * One recurrence step from `c`: `setDate(getDate() + 1)` for daily,
   * `setDate(getDate() + 7)` for weekly, `setMonth(getMonth() + 1)` for
   * monthly. Each keeps the day-of-month arithmetic of ECMAScript's MakeDay,
   * so an overflowing day carries into the following month.
   */
  function NextDue(c: CivilDate, r: Repeat): (n: CivilDate)
    requires IsValid(c) && r != NoRepeat
    ensures IsValid(n)
  {
    if r == Daily then Normalize(c.year, c.month, c.day + 1)
    else if r == Weekly then Normalize(c.year, c.month, c.day + 7)
    else
      var f := FirstOfNextMonth(c.year, c.month);
      Normalize(f.year, f.month, c.day)
  }

  /** How many days one step of rule `r` moves a date in month `c.month`. */
  function Period(c: CivilDate, r: Repeat): int
    requires 1 <= c.month <= 12
  {
    match r
    case NoRepeat => 0
    case Daily => 1
    case Weekly => 7
    case Monthly => DaysInMonth(c.year, c.month)
  }

  /**
   * A daily step moves one day forward, a weekly step seven; a monthly step
   * moves by the length of the current month, so it lands on the same
   * day-of-month in the next month whenever that day exists there.
   */
  lemma NextDueAdvancesByPeriod(c: CivilDate, r: Repeat)
    requires IsValid(c) && r != NoRepeat
    ensures DayNumber(NextDue(c, r)) == DayNumber(c) + Period(c, r)
    ensures Before(c, NextDue(c, r))
  {
    var f := FirstOfNextMonth(c.year, c.month);
    if r == Daily {
      NormalizeIsMakeDay(c.year, c.month, c.day + 1);
    } else if r == Weekly {
      NormalizeIsMakeDay(c.year, c.month, c.day + 7);
    } else {
      NormalizeIsMakeDay(f.year, f.month, c.day);
      NextMonthDayNumber(c.year, c.month);
    }
    DayNumberOrder(c, NextDue(c, r));
  }

  /** The daily step in calendar terms: the next day of the month, or the first of the next month. */
  lemma DailyStep(c: CivilDate)
    requires IsValid(c)
    ensures NextDue(c, Daily) ==
      if c.day < DaysInMonth(c.year, c.month) then CivilDate(c.year, c.month, c.day + 1)
      else FirstOfNextMonth(c.year, c.month)
  {
    if c.day == DaysInMonth(c.year, c.month) {
      var f := FirstOfNextMonth(c.year, c.month);
      assert Normalize(f.year, f.month, 1) == f;
    }
  }

  /**
   * The monthly step in calendar terms: the same day in the next month; when
   * that month is shorter, the excess days carry into the month after it.
   */
  lemma MonthlyStep(c: CivilDate)
    requires IsValid(c)
    ensures var f := FirstOfNextMonth(c.year, c.month);
      var len := DaysInMonth(f.year, f.month);
      var g := FirstOfNextMonth(f.year, f.month);
      NextDue(c, Monthly) ==
        if c.day <= len then CivilDate(f.year, f.month, c.day)
        else CivilDate(g.year, g.month, c.day - len)
  {
    var f := FirstOfNextMonth(c.year, c.month);
    var len := DaysInMonth(f.year, f.month);
    if c.day > len {
      var g := FirstOfNextMonth(f.year, f.month);
      assert c.day - len <= 3 <= DaysInMonth(g.year, g.month);
      assert Normalize(g.year, g.month, c.day - len) == CivilDate(g.year, g.month, c.day - len);
    }
  }

  /** January 31 plus one month is March 3 in a common year and March 2 in a leap year. */
  lemma MonthlyOverflowExamples()
    ensures NextDue(CivilDate(2023, 1, 31), Monthly) == CivilDate(2023, 3, 3)
    ensures NextDue(CivilDate(2024, 1, 31), Monthly) == CivilDate(2024, 3, 2)
  {
    MonthlyStep(CivilDate(2023, 1, 31));
    MonthlyStep(CivilDate(2024, 1, 31));
  }

  // ---------------------------------------------------------------------
  // The advancement rule for one item (script.js:267-290)
  // ---------------------------------------------------------------------

  /**
   * The date label an item has after the advancement pass. A "none" rule, or
   * a date on or after today, keeps the label. Otherwise the label is
   * rewritten from the stepped date; an empty or unparseable label is the
   * Invalid Date, which compares false against today and formats as NaN.
   */
  function AdvancedDate(date: string, r: Repeat, today: CivilDate): string
    requires IsValid(today)
  {
    if r == NoRepeat then date
    else match ParseDate(date)
      case Valid(c) => if DayNumber(c) >= DayNumber(today) then date else FormatDate(NextDue(c, r))
      case _ => InvalidDateText
  }

  function Advance(it: Item, today: CivilDate): Item
    requires IsValid(today)
  {
    it.(date := AdvancedDate(it.date, it.repeat, today))
  }

  /** The list `updateRepeatingTodos` leaves: every item visited, in place. */
  function AdvanceAll(items: seq<Item>, today: CivilDate): (r: seq<Item>)
    requires IsValid(today)
    ensures |r| == |items|
  {
    seq(|items|, k requires 0 <= k < |items| => Advance(items[k], today))
  }

  /** Tasks that do not repeat, and tasks not yet due, keep their date label. */
  lemma AdvanceKeepsUndue(date: string, r: Repeat, today: CivilDate)
    requires IsValid(today)
    requires r == NoRepeat || (ParseDate(date).Valid? && !Before(ParseDate(date).date, today))
    ensures AdvancedDate(date, r, today) == date
  {
    if r != NoRepeat {
      DayNumberOrder(ParseDate(date).date, today);
    }
  }

  /**
   * A repeating task whose date is past moves by exactly one period, however
   * far in the past the date is, and the written label reads back as the new
   * date when its year has four digits.
   */
  lemma AdvanceOneStep(date: string, r: Repeat, today: CivilDate)
    requires IsValid(today) && r != NoRepeat
    requires ParseDate(date).Valid? && Before(ParseDate(date).date, today)
    ensures var c := ParseDate(date).date;
      AdvancedDate(date, r, today) == FormatDate(NextDue(c, r))
      && DayNumber(NextDue(c, r)) == DayNumber(c) + Period(c, r)
    ensures var n := NextDue(ParseDate(date).date, r);
      1000 <= n.year <= 9999 ==> ParseDate(AdvancedDate(date, r, today)) == Valid(n)
  {
    var c := ParseDate(date).date;
    DayNumberOrder(c, today);
    NextDueAdvancesByPeriod(c, r);
    var n := NextDue(c, r);
    assert AdvancedDate(date, r, today) == FormatDate(n);
    if 1000 <= n.year <= 9999 {
      FormatParseRoundTrip(n);
    }
  }

  /**
   * A repeating task with an empty or unparseable date is not skipped: its
   * label becomes "NaN-NaN-NaN", which itself never parses, so every later
   * pass writes the same text again.
   */
  lemma AdvanceInvalidDate(date: string, r: Repeat, today: CivilDate)
    requires IsValid(today) && r != NoRepeat && !ParseDate(date).Valid?
    ensures AdvancedDate(date, r, today) == InvalidDateText
    ensures AdvancedDate(InvalidDateText, r, today) == InvalidDateText
  {
    InvalidDateTextIsInvalid();
  }

  /**
   * One pass is not a catch-up: a daily task more than one day overdue is
   * still expired after advancing.
   */
  lemma OnePassMayLeaveOverdue(date: string, today: CivilDate)
    requires IsValid(today) && ParseDate(date).Valid?
    requires DayNumber(ParseDate(date).date) + 1 < DayNumber(today)
    requires 1000 <= NextDue(ParseDate(date).date, Daily).year <= 9999
    ensures IsExpired(AdvancedDate(date, Daily, today), today)
  {
    var c := ParseDate(date).date;
    DayNumberOrder(c, today);
    AdvanceOneStep(date, Daily, today);
  }

  // ---------------------------------------------------------------------
  // Classification (script.js:216-257)
  // ---------------------------------------------------------------------

  /** `taskDate < today`: false whenever the label is the Invalid Date. */
  predicate IsExpired(date: string, today: CivilDate)
    requires IsValid(today)
  {
    match ParseDate(date)
    case Valid(c) => DayNumber(c) < DayNumber(today)
    case _ => false
  }

  /** `taskDate.getTime() === today.getTime()`: false whenever the label is the Invalid Date. */
  predicate IsToday(date: string, today: CivilDate)
    requires IsValid(today)
  {
    match ParseDate(date)
    case Valid(c) => DayNumber(c) == DayNumber(today)
    case _ => false
  }

  /**
   * In calendar terms: a dated task is expired exactly when its date is
   * earlier than today and is today's exactly when its date is today; an
   * empty or unparseable date is neither; and never both.
   */
  lemma ClassificationMeaning(date: string, today: CivilDate)
    requires IsValid(today)
    ensures ParseDate(date).Valid? ==>
      (IsExpired(date, today) <==> Before(ParseDate(date).date, today))
      && (IsToday(date, today) <==> ParseDate(date).date == today)
    ensures !ParseDate(date).Valid? ==> !IsExpired(date, today) && !IsToday(date, today)
    ensures !(IsExpired(date, today) && IsToday(date, today))
  {
    if ParseDate(date).Valid? {
      DayNumberOrder(ParseDate(date).date, today);
    }
  }

  /** The list `markExpiredTodos` leaves: each `expired` class set from the date alone. */
  function MarkExpired(items: seq<Item>, today: CivilDate): (r: seq<Item>)
    requires IsValid(today)
    ensures |r| == |items|
  {
    seq(|items|, k requires 0 <= k < |items| => items[k].(expired := IsExpired(items[k].date, today)))
  }

  /** The list `markTodayTodos` leaves: each `today` class set from the date alone. */
  function MarkToday(items: seq<Item>, today: CivilDate): (r: seq<Item>)
    requires IsValid(today)
    ensures |r| == |items|
  {
    seq(|items|, k requires 0 <= k < |items| => items[k].(today := IsToday(items[k].date, today)))
  }

  /** Both markers, in the order the source runs them. */
  function Classify(items: seq<Item>, today: CivilDate): (r: seq<Item>)
    requires IsValid(today)
    ensures |r| == |items|
  {
    MarkToday(MarkExpired(items, today), today)
  }

  /**
   * Classification reads only dates and today: running both markers again
   * with the same today changes nothing, and the flags never depend on the
   * flags the items had before.
   */
  lemma ClassifyIdempotent(items: seq<Item>, today: CivilDate)
    requires IsValid(today)
    ensures Classify(Classify(items, today), today) == Classify(items, today)
    ensures forall k :: 0 <= k < |items| ==>
      Classify(items, today)[k] == items[k].(expired := IsExpired(items[k].date, today), today := IsToday(items[k].date, today))
  {
  }

  /** After classification no item is both expired and due today. */
  lemma ClassifyExclusive(items: seq<Item>, today: CivilDate)
    requires IsValid(today)
    ensures forall k :: 0 <= k < |items| ==> !(Classify(items, today)[k].expired && Classify(items, today)[k].today)
  {
    forall k | 0 <= k < |items|
      ensures !(Classify(items, today)[k].expired && Classify(items, today)[k].today)
    {
      ClassificationMeaning(items[k].date, today);
    }
  }

  /**
   * A scenario: a daily task dated 2020-01-01, activated on 2025-06-15, is
   * stored as 2020-01-02 and shows as expired, not today.
   */
  lemma DailyScenario()
    ensures AdvancedDate("2020-01-01", Daily, CivilDate(2025, 6, 15)) == "2020-01-02"
    ensures IsExpired("2020-01-02", CivilDate(2025, 6, 15)) && !IsToday("2020-01-02", CivilDate(2025, 6, 15))
  {
    var today := CivilDate(2025, 6, 15);
    var c := CivilDate(2020, 1, 1);
    FormatParseRoundTrip(c);
    assert FormatDate(c) == "2020-01-01";
    AdvanceOneStep("2020-01-01", Daily, today);
    DailyStep(c);
    var n := CivilDate(2020, 1, 2);
    assert FormatDate(n) == "2020-01-02";
    FormatParseRoundTrip(n);
    ClassificationMeaning("2020-01-02", today);
  }
}

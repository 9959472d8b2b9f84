/**
 * The ordering pass (`sortTodosByDate`, script.js:299-310): a stable sort of
 * the items by the time value of `new Date(date || "9999-12-31")`. The
 * comparator `dateA - dateB` orders by day number; `Array.prototype.sort`
 * is stable.
 */
module Ordering {
  import opened CivilDates
  import opened DateText
  import opened Tasks
  import opened StableSort
  import opened Schedule

  /** The key used in place of an empty date label. */
  const NoDateKey: string := "9999-12-31"

  const NoDateKeyDate: CivilDate := CivilDate(9999, 12, 31)

  /** The date the comparator sees for an item. */
  function SortKey(it: Item): DateValue {
    ParseDate(if it.date == "" then NoDateKey else it.date)
  }

  /** Whether the comparator gives a number (not NaN) for this item. */
  predicate HasComparableKey(it: Item) {
    SortKey(it).Valid?
  }

  /**
   * The position of an item's key on the day line. A key that is the Invalid
   * Date leaves the source's order implementation-defined; the model ranks it
   * with the empty-date key.
   */
  function Rank(it: Item): int {
    match SortKey(it)
    case Valid(c) => DayNumber(c)
    case _ => DayNumber(NoDateKeyDate)
  }

  lemma NoDateKeyParses()
    ensures ParseDate(NoDateKey) == Valid(NoDateKeyDate)
  {
    FormatParseRoundTrip(NoDateKeyDate);
    assert FormatDate(NoDateKeyDate) == NoDateKey;
  }

  /** For two items with comparable keys, rank order is calendar order of the keys. */
  lemma RankIsCalendarOrder(a: Item, b: Item)
    requires HasComparableKey(a) && HasComparableKey(b)
    ensures Rank(a) < Rank(b) <==> Before(SortKey(a).date, SortKey(b).date)
    ensures Rank(a) == Rank(b) <==> SortKey(a).date == SortKey(b).date
  {
    DayNumberOrder(SortKey(a).date, SortKey(b).date);
  }

  /**
   * An undated item ranks after every item whose date parses, except one
   * dated 9999-12-31 itself, with which it ties.
   */
  lemma UndatedRanksLast(undated: Item, dated: Item)
    requires undated.date == "" && ParseDate(dated.date).Valid?
    ensures Rank(dated) <= Rank(undated)
    ensures Rank(dated) == Rank(undated) <==> ParseDate(dated.date).date == NoDateKeyDate
  {
    NoDateKeyParses();
    var c := ParseDate(dated.date).date;
    DayNumberOrder(c, NoDateKeyDate);
  }

  /** The reference order of the ordering pass. */
  function SortTodos(items: seq<Item>): seq<Item> {
    SortByKey(items, Rank)
  }

  /**
   * The ordering pass sorts by rank, is a permutation, and keeps items of
   * equal rank in their previous relative order. For comparable keys, rank
   * order is calendar order (`RankIsCalendarOrder`).
   */
  lemma SortTodosIsStableSort(items: seq<Item>)
    ensures SortedByKey(SortTodos(items), Rank)
    ensures multiset(SortTodos(items)) == multiset(items) && |SortTodos(items)| == |items|
    ensures forall k :: WithKey(SortTodos(items), Rank, k) == WithKey(items, Rank, k)
  {
    SortByKeyIsStableSort(items, Rank);
  }

  lemma ScenarioLabelParses()
    ensures ParseDate("2025-06-15") == Valid(CivilDate(2025, 6, 15))
  {
    assert FormatDate(CivilDate(2025, 6, 15)) == "2025-06-15";
    FormatParseRoundTrip(CivilDate(2025, 6, 15));
  }

  /** A scenario: after sorting, a task dated 2025-06-15 comes before an undated one. */
  lemma UndatedAfterDated(dated: Item, undated: Item)
    requires dated.date == "2025-06-15" && undated.date == ""
    ensures SortTodos([dated, undated]) == [dated, undated]
    ensures SortTodos([undated, dated]) == [dated, undated]
  {
    ScenarioLabelParses();
    UndatedRanksLast(undated, dated);
    assert Rank(dated) < Rank(undated);
    SortTwo(dated, undated, Rank);
  }

  /**
   * Past-due tasks come before today's: the ordering pass ranks an expired
   * task ahead of a task due today, whatever order they were in.
   */
  lemma ExpiredBeforeToday(past: Item, due: Item, today: CivilDate)
    requires IsValid(today) && IsExpired(past.date, today) && IsToday(due.date, today)
    ensures SortTodos([past, due]) == [past, due]
    ensures SortTodos([due, past]) == [past, due]
  {
    assert Rank(past) < Rank(due);
    SortTwo(past, due, Rank);
  }
}

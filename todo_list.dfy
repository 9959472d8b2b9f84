/**
 * The page state that script.js works on, as one object: the items of
 * `#todo-list` in document order, the text box `#todo-input`, and the
 * stored value under the key "deepsea_todos". Each method is one function
 * of the script; event wiring and rendering are outside the model.
 */
module TodoApp {
  import opened Wrappers
  import opened CivilDates
  import opened JsText
  import opened Tasks
  import opened Schedule
  import opened StableSort
  import opened Ordering

  /**
   * The stored value: no key; a JSON array of objects; a JSON array whose
   * first `null` element follows the objects `entries` (reading `todo.text`
   * of it throws); or a value the load rejects before creating any item
   * (text `JSON.parse` rejects, or JSON that is not an array).
   */
  datatype Stored = Absent | Saved(entries: seq<Entry>) | NullAfter(entries: seq<Entry>) | Corrupt

  /** Whether `loadTodos` runs to its end on this value. */
  predicate Loads(st: Stored) {
    st.Absent? || st.Saved?
  }

  /** The objects `loadTodos` creates items from before it ends or throws; a missing key reads as "[]". */
  function StoredEntries(st: Stored): seq<Entry> {
    match st
    case Saved(es) => es
    case NullAfter(es) => es
    case _ => []
  }

  class TodoList {
    var items: seq<Item>
    var input: string
    var storage: Stored

    constructor (stored: Stored)
      ensures items == [] && input == "" && storage == stored
    {
      items := [];
      input := "";
      storage := stored;
    }

    /** `saveTodos` (script.js:184-201): store one object per item, in list order. */
    method SaveTodos()
      modifies this
      ensures storage == Saved(SaveAll(items))
      ensures items == old(items) && input == old(input)
    {
      var todos: seq<Entry> := [];
      var k := 0;
      while k < |items|
        invariant 0 <= k <= |items|
        invariant |todos| == k
        invariant forall j :: 0 <= j < k ==> todos[j] == ToEntry(items[j])
        invariant items == old(items) && input == old(input)
      {
        todos := todos + [ToEntry(items[k])];
        k := k + 1;
      }
      storage := Saved(todos);
    }

    /** `createTodoItem` (script.js:53-150): append one item; `None` is an argument left undefined. */
    method CreateTodoItem(text: string, completed: Option<bool>, level: Option<Level>,
                          date: Option<string>, repeat: Option<Repeat>)
      modifies this
      ensures items == old(items) + [NewItem(text, completed, level, date, repeat)]
      ensures input == old(input) && storage == old(storage)
    {
      items := items + [NewItem(text, completed, level, date, repeat)];
    }

    /**
     * `loadTodos` (script.js:206-211): append an item per stored object. A
     * stored value that is not a JSON array makes `JSON.parse` (or the
     * iteration) throw before any item exists; a `null` element makes
     * `todo.text` throw after the items before it were appended. `ok == false`
     * reports the exception.
     */
    method LoadTodos() returns (ok: bool)
      modifies this
      ensures ok <==> Loads(old(storage))
      ensures items == old(items) + LoadAll(StoredEntries(old(storage)))
      ensures storage == old(storage) && input == old(input)
    {
      if storage.Corrupt? {
        return false;
      }
      var es := StoredEntries(storage);
      var k := 0;
      while k < |es|
        invariant 0 <= k <= |es|
        invariant items == old(items) + LoadAll(es[..k])
        invariant storage == old(storage) && input == old(input)
      {
        var e := es[k];
        CreateTodoItem(e.text.GetOr(UndefinedText), e.completed, e.level, e.date, e.repeat);
        assert LoadAll(es[..k + 1]) == LoadAll(es[..k]) + [FromEntry(e)];
        k := k + 1;
      }
      assert es[..|es|] == es;
      return !storage.NullAfter?;
    }

    /**
     * `updateRepeatingTodos` (script.js:262-294): advance every item by the
     * rule of `AdvancedDate`, then save, whether or not anything changed.
     */
    method UpdateRepeatingTodos(today: CivilDate)
      requires IsValid(today)
      modifies this
      ensures items == AdvanceAll(old(items), today)
      ensures storage == Saved(SaveAll(items)) && input == old(input)
    {
      var k := 0;
      while k < |items|
        invariant 0 <= k <= |items| == |old(items)|
        invariant forall j :: 0 <= j < k ==> items[j] == Advance(old(items)[j], today)
        invariant forall j :: k <= j < |items| ==> items[j] == old(items)[j]
        invariant input == old(input)
      {
        items := items[k := Advance(items[k], today)];
        k := k + 1;
      }
      SaveTodos();
    }

    /** `markExpiredTodos` (script.js:216-234): set or clear each `expired` flag from the date. */
    method MarkExpiredTodos(today: CivilDate)
      requires IsValid(today)
      modifies this
      ensures items == MarkExpired(old(items), today)
      ensures storage == old(storage) && input == old(input)
    {
      var k := 0;
      while k < |items|
        invariant 0 <= k <= |items| == |old(items)|
        invariant forall j :: 0 <= j < k ==> items[j] == old(items)[j].(expired := IsExpired(old(items)[j].date, today))
        invariant forall j :: k <= j < |items| ==> items[j] == old(items)[j]
        invariant storage == old(storage) && input == old(input)
      {
        items := items[k := items[k].(expired := IsExpired(items[k].date, today))];
        k := k + 1;
      }
    }

    /** `markTodayTodos` (script.js:239-257): set or clear each `today` flag from the date. */
    method MarkTodayTodos(today: CivilDate)
      requires IsValid(today)
      modifies this
      ensures items == MarkToday(old(items), today)
      ensures storage == old(storage) && input == old(input)
    {
      var k := 0;
      while k < |items|
        invariant 0 <= k <= |items| == |old(items)|
        invariant forall j :: 0 <= j < k ==> items[j] == old(items)[j].(today := IsToday(old(items)[j].date, today))
        invariant forall j :: k <= j < |items| ==> items[j] == old(items)[j]
        invariant storage == old(storage) && input == old(input)
      {
        items := items[k := items[k].(today := IsToday(items[k].date, today))];
        k := k + 1;
      }
    }

    /**
     * `sortTodosByDate` (script.js:299-310): copy the items into an array,
     * sort it in place, and append every item in that order, which leaves the
     * list in the sorted order. Nothing is saved.
     */
    method SortTodosByDate()
      modifies this
      ensures items == SortTodos(old(items))
      ensures storage == old(storage) && input == old(input)
    {
      var arr := new Item[|items|](k requires 0 <= k < |items| reads this => items[k]);
      assert arr[..] == items;
      InsertionSort(arr, Rank);
      items := arr[..];
    }

    /**
     * `addTodo` (script.js:32-48), with the three selects' values as
     * parameters. Blank input does nothing at all. Otherwise one item is
     * appended and saved (in unsorted order), the input is cleared, and the
     * list is classified and sorted.
     */
    method AddTodo(level: Level, date: string, repeat: Repeat, today: CivilDate) returns (added: bool)
      requires IsValid(today)
      modifies this
      ensures added <==> !IsBlank(old(input))
      ensures !added ==> items == old(items) && storage == old(storage) && input == old(input)
      ensures added ==>
        var appended := old(items) + [NewItem(Trim(old(input)), Some(false), Some(level), Some(date), Some(repeat))];
        storage == Saved(SaveAll(appended)) && input == "" && items == SortTodos(Classify(appended, today))
    {
      var text := AcceptedText(input);
      if text.None? {
        return false;
      }
      CreateTodoItem(text.value, Some(false), Some(level), Some(date), Some(repeat));
      SaveTodos();
      input := "";
      MarkExpiredTodos(today);
      MarkTodayTodos(today);
      SortTodosByDate();
      return true;
    }

    /** A click on item `i` outside its buttons (script.js:78-88): flip `completed` and save. */
    method ToggleCompleted(i: int)
      requires 0 <= i < |items|
      modifies this
      ensures items == old(items)[i := old(items)[i].(completed := !old(items)[i].completed)]
      ensures storage == Saved(SaveAll(items)) && input == old(input)
    {
      items := items[i := items[i].(completed := !items[i].completed)];
      SaveTodos();
    }

    /** The delete button of item `i` (script.js:91-95): remove it and save. */
    method DeleteTodo(i: int)
      requires 0 <= i < |items|
      modifies this
      ensures items == old(items)[..i] + old(items)[i + 1..]
      ensures storage == Saved(SaveAll(items)) && input == old(input)
    {
      items := items[..i] + items[i + 1..];
      SaveTodos();
    }

    /**
     * `saveEdit` (script.js:118-127): `current` is the text captured when
     * editing began. The item gets the trimmed edit, or `current` when the
     * edit is blank, and the list is saved.
     */
    method SaveEdit(i: int, current: string, typed: string)
      requires 0 <= i < |items|
      modifies this
      ensures items == old(items)[i := old(items)[i].(text := EditedText(current, typed))]
      ensures storage == Saved(SaveAll(items)) && input == old(input)
    {
      items := items[i := items[i].(text := EditedText(current, typed))];
      SaveTodos();
    }

    /** `cancelEdit` (script.js:129-136): put back the text captured when editing began; nothing is saved. */
    method CancelEdit(i: int, current: string)
      requires 0 <= i < |items|
      modifies this
      ensures items == old(items)[i := old(items)[i].(text := current)]
      ensures storage == old(storage) && input == old(input)
    {
      items := items[i := items[i].(text := current)];
    }

    /**
     * The start-up handler (script.js:15-21): load, advance repeating tasks
     * (which saves), classify, sort. A stored value on which the load throws
     * stops the handler there: whatever items were created stay, unclassified,
     * unsorted and unsaved.
     */
    method Start(today: CivilDate) returns (ok: bool)
      requires IsValid(today)
      modifies this
      ensures ok <==> Loads(old(storage))
      ensures !ok ==> items == old(items) + LoadAll(StoredEntries(old(storage))) && storage == old(storage)
      ensures ok ==>
        var advanced := AdvanceAll(old(items) + LoadAll(StoredEntries(old(storage))), today);
        storage == Saved(SaveAll(advanced)) && items == SortTodos(Classify(advanced, today))
      ensures input == old(input)
    {
      ok := LoadTodos();
      if !ok {
        return;
      }
      UpdateRepeatingTodos(today);
      MarkExpiredTodos(today);
      MarkTodayTodos(today);
      SortTodosByDate();
    }
  }

  /**
   * What the page shows after start-up or an add: the classified items in
   * sorted order, none of them both expired and due today, and nothing lost
   * or duplicated by the sort.
   */
  lemma ShownListIsConsistent(items: seq<Item>, today: CivilDate)
    requires IsValid(today)
    ensures multiset(SortTodos(Classify(items, today))) == multiset(Classify(items, today))
    ensures forall it :: it in SortTodos(Classify(items, today)) ==> !(it.expired && it.today)
  {
    var shown := Classify(items, today);
    SortTodosIsStableSort(shown);
    ClassifyExclusive(items, today);
    forall it | it in SortTodos(shown) ensures !(it.expired && it.today) {
      assert it in multiset(SortTodos(shown));
      assert it in multiset(shown);
      var k :| 0 <= k < |shown| && shown[k] == it;
    }
  }
}

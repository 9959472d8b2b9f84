/** Option, for the fields a stored JSON object may lack (`undefined` in JavaScript). */
module Wrappers {
  datatype Option<+T> = None | Some(value: T) {
    function GetOr(default: T): T {
      match this
      case Some(v) => v
      case None => default
    }
  }
}

/**
 * A task record: one `<li class="todo-item">` of the list, read as data.
 * Its classes `light`/`middle`/`deep` give the level, `completed`, `expired`
 * and `today` are flags, and the three labels hold text, date and repeat rule.
 * `Entry` is the plain object that `saveTodos` writes and `loadTodos` reads.
 */
module Tasks {
  import opened Wrappers
  import opened JsText

  datatype Level = Light | Middle | Deep

  datatype Repeat = NoRepeat | Daily | Weekly | Monthly

  datatype Item = Item(
    text: string,
    completed: bool,
    level: Level,
    date: string,      // the date label's text: "", ISO text, or anything written back
    repeat: Repeat,
    expired: bool,     // the `expired` class
    today: bool)       // the `today` class

  /** A stored object; `None` is a property the object does not have. */
  datatype Entry = Entry(
    text: Option<string>,
    completed: Option<bool>,
    level: Option<Level>,
    date: Option<string>,
    repeat: Option<Repeat>)

  /** What `${text}` makes of an absent text property. */
  const UndefinedText: string := "undefined"

  /**
   * The item `createTodoItem(text, completed, level, date, repeat)` appends.
   * `None` is an argument passed as `undefined`: the parameter defaults
   * `false`, "light", "" and "none" apply. A fresh item carries neither flag.
   */
  function NewItem(text: string, completed: Option<bool>, level: Option<Level>,
                   date: Option<string>, repeat: Option<Repeat>): Item
  {
    Item(text, completed.GetOr(false), level.GetOr(Light), date.GetOr(""), repeat.GetOr(NoRepeat), false, false)
  }

  /** The object `saveTodos` pushes for one item: every property present. */
  function ToEntry(it: Item): Entry {
    Entry(Some(it.text), Some(it.completed), Some(it.level), Some(it.date), Some(it.repeat))
  }

  /** The item `loadTodos` creates from one stored object. */
  function FromEntry(e: Entry): Item {
    NewItem(e.text.GetOr(UndefinedText), e.completed, e.level, e.date, e.repeat)
  }

  /** The array `saveTodos` stores: one object per item, in list order. */
  function SaveAll(items: seq<Item>): (es: seq<Entry>)
    ensures |es| == |items|
  {
    seq(|items|, k requires 0 <= k < |items| => ToEntry(items[k]))
  }

  /** The items `loadTodos` appends: one per stored object, in stored order. */
  function LoadAll(es: seq<Entry>): (items: seq<Item>)
    ensures |items| == |es|
  {
    seq(|es|, k requires 0 <= k < |es| => FromEntry(es[k]))
  }

  /** An item as it reads back after a reload: every stored field kept, both flags cleared. */
  function Reloaded(it: Item): Item {
    it.(expired := false, today := false)
  }

  /**
   * Save then load reproduces text, completed, level, date and repeat of
   * every item, in order; only the derived flags are not stored.
   */
  lemma SaveLoadRoundTrip(items: seq<Item>)
    ensures LoadAll(SaveAll(items)) == seq(|items|, k requires 0 <= k < |items| => Reloaded(items[k]))
    ensures forall k :: 0 <= k < |items| ==>
      var it := LoadAll(SaveAll(items))[k];
      it.text == items[k].text && it.completed == items[k].completed && it.level == items[k].level
      && it.date == items[k].date && it.repeat == items[k].repeat && !it.expired && !it.today
  {
  }

  /** An object with only a text property loads with the parameter defaults. */
  lemma LoadDefaults(t: string)
    ensures LoadAll([Entry(Some(t), None, None, None, None)]) == [Item(t, false, Light, "", NoRepeat, false, false)]
  {
  }

  /** The text `addTodo` would use, or `None` when the trimmed input is empty (script.js:33-38). */
  function AcceptedText(input: string): (r: Option<string>)
    ensures r.None? <==> IsBlank(input)
    ensures r.Some? ==> r.value == Trim(input) && r.value != "" && Trim(r.value) == r.value
  {
    var t := Trim(input);
    TrimFacts(input);
    if t == "" then None else Some(t)
  }

  /** The text an edit commits: the trimmed input, or the text before editing when that is empty. */
  function EditedText(current: string, typed: string): (r: string)
    ensures IsBlank(typed) ==> r == current
    ensures !IsBlank(typed) ==> r == Trim(typed) && r != "" && Trim(r) == r
  {
    var t := Trim(typed);
    TrimFacts(typed);
    if t == "" then current else t
  }

  /** Committing an edit never blanks a task whose text was not blank. */
  lemma EditKeepsTextNonBlank(current: string, typed: string)
    requires !IsBlank(current)
    ensures !IsBlank(EditedText(current, typed))
  {
    var r := EditedText(current, typed);
    if !IsBlank(typed) {
      TrimEmptyIffBlank(r);
    }
  }
}

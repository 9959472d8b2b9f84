# Deep-Sea-ToDo scheduling core, in Dafny

Deep-Sea-ToDo is a browser task list. Each task has:

- a text;
- a completed flag;
- a depth level (light, middle or deep);
- an optional due date, written as `YYYY-MM-DD`;
- a repeat rule (none, daily, weekly or monthly).

Tasks are kept in local storage as a JSON array. When the page starts, the script:

- loads the stored tasks;
- moves on repeating tasks whose date has passed, then saves;
- marks each task as *expired* (its date is before today) or *today* (its date is today);
- sorts the list by due date, with undated tasks treated as due on 9999-12-31.

Adding a task saves the list, then marks and sorts it again. Repeating tasks are not moved on then.

This project models that core of `script.js` and proves what it does:

- `civil_date.dfy` (`CivilDates`): Gregorian civil dates.
  - A day count that orders dates the way ECMAScript time values do.
  - `Normalize`: the day-of-month overflow rule behind `setDate` and `setMonth`.
- `date_text.dfy` (`DateText`):
  - the date label read by `new Date(label)`;
  - the label written back as `yyyy-mm-dd`, using `String` and `padStart`.
- `js_text.dfy` (`JsText`): `String.prototype.trim`, over ECMAScript's white-space and line-terminator characters.
- `tasks.dfy` (`Tasks`):
  - task records and stored objects;
  - the defaults of `createTodoItem`;
  - the save/load mapping;
  - the text rules of adding and editing.
- `schedule.dfy` (`Schedule`):
  - the recurrence step and the advancement pass;
  - the expired/today classification.
- `stable_sort.dfy` (`StableSort`): a stable insertion sort by an integer key.
  - A reference definition on sequences, proved ordered, a permutation and stable.
  - An in-place array version proved equal to the reference.
- `ordering.dfy` (`Ordering`): the sort key and the ordering pass.
- `todo_list.dfy` (`TodoApp`): the page as one object, `TodoList`.
  - Its fields are the list items in document order, the input box, and the stored value.
  - It has one method per function of the script.
  - Each method's postcondition ties the new state to the functions above.

The current date, `new Date()` with `setHours(0, 0, 0, 0)`, is modelled as a parameter `today`. The values of the level, date and repeat inputs are modelled as parameters too.

## Where the code does not do what one might expect

The model follows the code in each of these.

- **A pass moves a due date by one step only.** `updateRepeatingTodos` adds one day, one week or one month, once per task, whatever the gap to today. A daily task ten days overdue is still overdue afterwards (`Schedule.OnePassMayLeaveOverdue`). One might expect a task to be caught up to today.
- **An empty or unparseable date on a repeating task is not skipped.**
  - `new Date("")` is the Invalid Date, and `taskDate >= now` is false for it.
  - The label is then rewritten as `NaN-NaN-NaN` (`Schedule.AdvanceInvalidDate`).
- **A corrupt stored value makes loading throw.** `JSON.parse` raises an exception at script.js:207, which ends the start-up handler. Nothing is loaded and nothing is saved. A `null` element in the stored array throws at script.js:209 too, after the items before it were created; those stay on the page, unsaved. `TodoList.LoadTodos` and `TodoList.Start` report both with `ok == false`. One might expect a corrupt store to be ignored; the model does not claim that.
- **Today's tasks do not come first.** The comment above `sortTodosByDate` (script.js:297) says today's tasks take priority, but the sort is plainly ascending by date. Every past-due task comes before a task due today (`Ordering.ExpiredBeforeToday`).

## Model

| member | source | states |
|---|---|---|
| CivilDates.DaysInMonth | script.js:282-284 | month lengths are 28..31, and 29 occurs exactly for February of a Gregorian leap year |
| CivilDates.Normalize | script.js:282-284 | a day-of-month beyond the month carries into later months and always yields a real date |
| CivilDates.NormalizeIsMakeDay | script.js:282-284 | the carried date is exactly `dt - 1` days after the first of the month, as ECMAScript's MakeDay computes it |
| CivilDates.YearStep | script.js:282-284 | consecutive years start `DaysInYear` days apart, so the day count agrees with the Gregorian leap rule |
| CivilDates.DayNumberOrder | script.js:228 | valid dates compare by day count exactly as they compare in the calendar, and equal counts mean equal dates |
| DateText.PadStart | script.js:287-288 | the result has the requested width (or the input's own length), ends with the input, and is filled on the left |
| DateText.NumberText | script.js:286-288 | `String(n)` of an integer; its digits read back as the number (`DigitsRoundTrip`) |
| DateText.FormatDate | script.js:286-290 | the written label `${yyyy}-${mm}-${dd}`; for four-digit years it is ISO text that parses back to the date (`FormatParseRoundTrip`) |
| DateText.ParseDate | script.js:225 | "" is the empty label; ISO-shaped text whose fields name a real day parses to that day; all else is the Invalid Date |
| DateText.PaddedRoundTrip | script.js:287-288 | a number padded with `padStart` to a width it fits is that many digits reading back as the number |
| DateText.ParseFormatRoundTrip | script.js:225 | a label that parses is the date's fields written back with the year padded to four places, and exactly what `FormatDate` writes when the year has four digits |
| DateText.DigitsRoundTrip | script.js:286 | the decimal text of a number reads back as that number |
| DateText.FormatParseRoundTrip | script.js:286-290 | a written label `yyyy-mm-dd` of a four-digit-year date reads back as the same date |
| DateText.InvalidDateTextIsInvalid | script.js:286-290 | the text written for the Invalid Date, "NaN-NaN-NaN", never parses as a date |
| JsText.TrimStart | script.js:33 | removes exactly a blank prefix and leaves no leading white space |
| JsText.TrimEnd | script.js:33 | removes exactly a blank suffix and leaves no trailing white space |
| JsText.Trim | script.js:33 | `trim()`, as `TrimEnd` of `TrimStart`; its meaning is stated by `TrimEmptyIffBlank` and `TrimIdempotent` |
| JsText.TrimEmptyIffBlank | script.js:33-38 | trimming gives "" exactly when the text is all white space |
| JsText.TrimIdempotent | script.js:119 | trimming a trimmed text changes nothing |
| Tasks.NewItem | script.js:53-65 | the item `createTodoItem` makes, with defaults for undefined arguments (`LoadDefaults`) |
| Tasks.ToEntry | script.js:187-197 | the object saved for one item, every property present (`SaveLoadRoundTrip`) |
| Tasks.FromEntry | script.js:208-209 | the item loaded from one object, "undefined" for a missing text (`SaveLoadRoundTrip`, `LoadDefaults`) |
| Tasks.SaveAll | script.js:184-198 | one object per item in list order (`SaveLoadRoundTrip`) |
| Tasks.LoadAll | script.js:206-211 | one item per object in stored order (`SaveLoadRoundTrip`) |
| Tasks.SaveLoadRoundTrip | script.js:184-211 | save then load restores every item's text, completed, level, date and repeat in order, with both flags cleared |
| Tasks.LoadDefaults | script.js:53 | an object with only a text loads as not completed, light, undated, not repeating |
| Tasks.AcceptedText | script.js:33-38 | no text exactly when the input is blank; otherwise a nonempty trimmed text |
| Tasks.EditedText | script.js:119 | a blank edit keeps the previous text; otherwise the nonempty trimmed edit |
| Tasks.EditKeepsTextNonBlank | script.js:118-127 | committing an edit never blanks a task that had text |
| Schedule.NextDue | script.js:280-284 | one recurrence step from a real date is a real date |
| Schedule.NextDueAdvancesByPeriod | script.js:282-284 | daily moves 1 day, weekly 7, monthly by the length of the current month, always later in the calendar |
| Schedule.DailyStep | script.js:282 | the next day of the month, or the first of the next month at a month's end |
| Schedule.MonthlyStep | script.js:284 | the same day next month, or with the excess carried into the month after when next month is shorter |
| Schedule.MonthlyOverflowExamples | script.js:284 | January 31 plus a month is March 3 in 2023 and March 2 in 2024 |
| Schedule.AdvancedDate | script.js:272-290 | the date label after the pass; its meaning is stated by `AdvanceKeepsUndue`, `AdvanceOneStep` and `AdvanceInvalidDate` |
| Schedule.Advance | script.js:267-291 | one item after the pass: only its date label changes, as `AdvancedDate` says |
| Schedule.AdvanceAll | script.js:267-291 | every item visited in place, the list's length kept (`TodoList.UpdateRepeatingTodos`) |
| Schedule.AdvanceKeepsUndue | script.js:273-278 | a non-repeating task or one not yet past due keeps its date label |
| Schedule.AdvanceOneStep | script.js:278-290 | a past-due repeating task moves exactly one period and its new label reads back as the new date |
| Schedule.AdvanceInvalidDate | script.js:275-290 | a repeating task with an empty or unparseable date gets "NaN-NaN-NaN", and keeps it on every later pass |
| Schedule.OnePassMayLeaveOverdue | script.js:278-284 | a daily task more than a day overdue is still expired after the pass |
| Schedule.IsExpired | script.js:225-228 | `taskDate < today`; in calendar terms by `ClassificationMeaning` |
| Schedule.IsToday | script.js:248-251 | `taskDate.getTime() === today.getTime()`; in calendar terms by `ClassificationMeaning` |
| Schedule.MarkExpired | script.js:221-233 | each `expired` flag set from the date alone, the list's length kept (`ClassifyIdempotent`) |
| Schedule.MarkToday | script.js:244-256 | each `today` flag set from the date alone, the list's length kept (`ClassifyIdempotent`) |
| Schedule.Classify | script.js:216-257 | both markers in source order, the list's length kept (`ClassifyIdempotent`, `ClassifyExclusive`) |
| Schedule.ClassificationMeaning | script.js:225-255 | expired exactly when the date is before today, today exactly when it is today, neither for an unparseable date, never both |
| Schedule.ClassifyIdempotent | script.js:216-257 | the flags depend on the date and today alone: classifying twice equals classifying once |
| Schedule.ClassifyExclusive | script.js:228-232 | after both passes no item is both expired and today |
| Schedule.DailyScenario | script.js:262-294 | a daily task dated 2020-01-01 seen on 2025-06-15 is stored as 2020-01-02 and shows expired, not today |
| StableSort.Insert | script.js:303-307 | one insertion step; stated by `InsertPermutes`, `InsertSorted` and `InsertStable` |
| StableSort.SortByKey | script.js:303-307 | the reference stable sort; stated by `SortByKeyIsStableSort` |
| StableSort.InsertPermutes | script.js:303-307 | inserting adds exactly the one element |
| StableSort.InsertSorted | script.js:303-307 | inserting into a sorted list keeps it sorted |
| StableSort.InsertStable | script.js:303-307 | the inserted element goes behind every element of equal key |
| StableSort.SortByKeyIsStableSort | script.js:303-307 | the sort orders by key, is a permutation, and keeps equal-key elements in input order |
| StableSort.SortTwo | script.js:303-307 | two elements of different keys come out in key order whatever their input order |
| StableSort.InsertIntoPrefix | script.js:303-307 | one insertion step in place leaves the prefix as the reference insertion, the rest untouched |
| StableSort.InsertionSort | script.js:303-307 | the array is sorted in place to the reference stable sort of its old contents |
| Ordering.SortKey | script.js:304-305 | the date the comparator reads, "9999-12-31" for an empty label (`NoDateKeyParses`) |
| Ordering.Rank | script.js:304-306 | the comparator's day-number key (`RankIsCalendarOrder`, `UndatedRanksLast`) |
| Ordering.SortTodos | script.js:303-307 | the order of the ordering pass (`SortTodosIsStableSort`) |
| Ordering.NoDateKeyParses | script.js:304-305 | the stand-in key "9999-12-31" parses as 9999-12-31 |
| Ordering.RankIsCalendarOrder | script.js:304-306 | for parseable keys, comparing ranks is comparing the dates |
| Ordering.UndatedRanksLast | script.js:304-306 | an undated task ranks after every dated one, tying only with 9999-12-31 |
| Ordering.SortTodosIsStableSort | script.js:299-310 | the ordering pass sorts by rank, is a permutation, and is stable |
| Ordering.UndatedAfterDated | script.js:299-310 | a task due 2025-06-15 comes before an undated one after sorting, whatever order they were in |
| Ordering.ExpiredBeforeToday | script.js:297-307 | an expired task comes before a task due today after sorting, whatever order they were in |
| TodoApp.TodoList.constructor | script.js:4-10 | the page starts with no items, an empty input, and whatever is stored |
| TodoApp.TodoList.SaveTodos | script.js:184-201 | the stored value becomes the list's objects in list order; nothing else changes |
| TodoApp.TodoList.CreateTodoItem | script.js:53-150 | appends exactly one item with the given values or the defaults |
| TodoApp.StoredEntries | script.js:207-209 | the objects the load creates items from: none for a missing key, those before a `null` element |
| TodoApp.TodoList.LoadTodos | script.js:206-211 | appends one item per stored object; a corrupt value throws and appends nothing; a `null` element throws after the items before it were appended |
| TodoApp.TodoList.UpdateRepeatingTodos | script.js:262-294 | every item is advanced by the one-step rule, then the list is saved |
| TodoApp.TodoList.MarkExpiredTodos | script.js:216-234 | each expired flag is set from the item's date; nothing is saved |
| TodoApp.TodoList.MarkTodayTodos | script.js:239-257 | each today flag is set from the item's date; nothing is saved |
| TodoApp.TodoList.SortTodosByDate | script.js:299-310 | the items are put in the order of the stable sort by rank; nothing is saved |
| TodoApp.TodoList.AddTodo | script.js:32-48 | blank input changes nothing; otherwise one item is appended, saved unsorted, the input cleared, then classified and sorted |
| TodoApp.TodoList.ToggleCompleted | script.js:78-88 | flips one item's completed flag and saves |
| TodoApp.TodoList.DeleteTodo | script.js:90-95 | removes exactly one item and saves |
| TodoApp.TodoList.SaveEdit | script.js:118-127 | the item gets the committed edit text and the list is saved |
| TodoApp.TodoList.CancelEdit | script.js:129-136 | the text captured when editing began is restored; nothing is saved |
| TodoApp.TodoList.Start | script.js:15-21 | load, advance and save, classify, sort; a load that throws stops everything there, keeping the items created so far |
| TodoApp.ShownListIsConsistent | script.js:45-47 | the shown list is a permutation of the classified items and none is both expired and today |

## Left out

- Rendering: the DOM, CSS classes as markup, the help modal and the search box (script.js:9 and the modal code) do not bear on the stored data.
- Drag-and-drop reordering (script.js:139-179): the order follows the mouse position on screen. The reordering itself is not modelled; the save at drag end (script.js:144-147) is `TodoList.SaveTodos`.
- Event ordering during an edit: blur versus Enter/Escape, and a blur after the input was replaced. `SaveEdit` and `CancelEdit` are the two commits, and `current` is the text captured when editing began.
- HTML interpretation of `${text}` inside `innerHTML`: the model keeps the text as given, so markup in a task text is not rendered.
- Local storage and JSON mechanics: a stored value is absent, an array of objects, an array with a `null` element after some objects (`NullAfter`), or `Corrupt`. `Corrupt` stands for text `JSON.parse` rejects and for JSON that is not an array, on which `forEach` throws before any item exists. An empty stored string reads as a missing key. A number or string element reads as an object without properties. A `null` property value is not represented.
- Level and repeat values outside the select options: they are modelled as enumerations, so stored strings such as "" or "yearly" are not represented.
- DateText.ParseDate: only the date-only ISO form `YYYY-MM-DD` naming a real day is read as a date. This is weaker than a browser, which also accepts other ISO forms (year only, year-month, date-time, expanded years) and implementation-specific formats. All of those are modelled as the Invalid Date. Browsers that roll an out-of-range day such as 2025-02-30 into the next month are not modelled. A parsed year below 1000 is written back unpadded (`String(999)` is "999"), so such a label does not round-trip; the model reads the written text as the Invalid Date, where a browser may apply its own fallback.
- Time zones: `new Date("YYYY-MM-DD")` is UTC midnight, and `setHours` works in local time. The model takes the label's day as the local day. That holds at or east of UTC. West of UTC a browser sees the previous local day, and the model does not capture what follows from that:
  - a daily step writes back the label it started from, so a past-due daily task never advances;
  - a task due today is marked expired, not today.
- The ECMAScript time-value range (about ±273,790 years): dates are unbounded integers.
- Ordering.Rank: when a key is the Invalid Date, the comparator returns NaN and the browser's order is implementation-defined. The model ranks such keys with the empty-date key, so its sort is only one of the orders a browser may produce. Calendar order is proved only for parseable keys (`Ordering.RankIsCalendarOrder`).
- Two clocks: the two markers and the advancement pass each call `new Date()`. The model gives them one `today`, so a run straddling midnight is not modelled.
- TodoApp.TodoList.SaveEdit: `current` is passed in, not read from the item. The source captures it when the edit button is clicked, and the model does not track the editing state between click and commit.

# Weekly plan board: a Dafny model

This project models `WeekPlanManager` from the Zotero Weekly Plan plugin. It is the
weekly kanban board of four columns (`planning`, `todo`, `doing`, `done`), stored in
Zotero's preferences under one key per week.

The model has three parts.

- **Dates** (`calendar.dfy`). An instant is a JavaScript time value: integer
  milliseconds since the epoch, at a zero time-zone offset. From it the module defines:
  - the start of the week (`startOfWeek`);
  - the week's storage key (`weekKey`, through a model of `toISOString`);
  - the `M/D ~ M/D` label (`fmtRange`);
  - the week number (`getWeekNumber`).

  It also holds a proleptic Gregorian calendar, used for the key, the label and the
  week number. That calendar includes the extended years `toISOString` writes outside
  0..9999. The week number models `Date.UTC`, which reads the years 0..99 as 1900 +
  year. Outside those years it is proved equal to an independent ISO 8601 definition.
- **The board** (`tasks.dfy`, `board.dfy`, `drag.dfy`, `search.dfy`, `stats.dfy`).
  - A task record (`Task`) is what the stored JSON holds. A task card (`Card`) is what
    a column list holds: the element's data attributes, its text, its dragging class
    and its `display`.
  - `renderTask` and the card-reading part of `saveForWeek` are functions between the
    two, with a round trip between them. Strings are modelled with `trim`, `split`,
    `join`, `toLowerCase` and `indexOf` in `strings.dfy`.
  - Deleting, the dragover move and its `getDragAfterElement` choice, the search filter
    and the counters are functions on the board. Lemmas prove what each of them keeps.
- **The manager** (`store.dfy`, `settings.dfy`, `weekplan.dfy`). The class
  `WeekPlanManager` has these fields:
  - the current date;
  - the four lists and their empty-state flags;
  - the preference store, as a map from key to parsed value;
  - the query, the statistics flag, the configuration, and the numbers shown on the
    panel.

  Each handler is a method with the source's loops. Each method's contract ties the
  new state to the functions above. Against those functions the lemmas prove:
  - loading what was saved gives back the board;
  - searching never changes what is stored;
  - the configuration survives a save and a reload.

All loads happen at one clock reading `clock` (for `Date.now()`) with ISO text `now`
(for `new Date().toISOString()`). Generated ids are `task_<clock>_<random>`, where the
random part is a parameter. The answers of `confirm` and `prompt` are parameters of
the handlers.

## Model

| member | source | states |
|---|---|---|
| Calendar.JsDay | src/modules/weekPlan.ts:1117 | `getDay()` of a day is in 0..6 |
| Calendar.MondayIndex | src/modules/weekPlan.ts:1117 | `(getDay() + 6) % 7` is in 0..6, with 0 on Mondays |
| Calendar.MondayOf | src/modules/weekPlan.ts:1117-1118 | going back `(getDay() + 6) % 7` days reaches a Monday, at most six days before the given day |
| Calendar.StartOfWeek | src/modules/weekPlan.ts:1115-1121 | the start of the week is a midnight that falls on a Monday, at or before `t` and less than seven days earlier |
| Calendar.StartOfWeekIsMonday | src/modules/weekPlan.ts:1115-1121 | the start of the week is the midnight of the one Monday whose seven days hold `t` |
| Calendar.StartOfWeekSameWeek | src/modules/weekPlan.ts:1115-1121 | two instants have the same start of week if and only if they lie in the same Monday-to-Sunday week |
| Calendar.StartOfWeekIdempotent | src/modules/weekPlan.ts:1115-1121 | the start of the start of a week is that start |
| Calendar.StartOfNextWeek | src/modules/weekPlan.ts:979-983 | adding seven days moves the start of the week seven days on |
| Calendar.StartOfPrevWeek | src/modules/weekPlan.ts:970-974 | subtracting seven days moves the start of the week seven days back |
| Calendar.MondaysWeeksApart | src/modules/weekPlan.ts:1117 | two Mondays are a whole number of weeks apart |
| Calendar.MondayUnique | src/modules/weekPlan.ts:1117 | a stretch of seven days holds only one Monday |
| Calendar.YearStartStep | src/modules/weekPlan.ts:1145 | each year of the calendar `Date.UTC` counts in is 365 days long, or 366 in a leap year |
| Calendar.YearOf | src/modules/weekPlan.ts:1145-1147 | `getFullYear`: the year whose days contain the day |
| Calendar.YearOfUnique | src/modules/weekPlan.ts:1145-1147 | a day lies in exactly one year |
| Calendar.MonthFrom | src/modules/weekPlan.ts:1138 | `getMonth`: the month whose days contain the day of the year |
| Calendar.MonthUnique | src/modules/weekPlan.ts:1138 | a day of the year lies in exactly one month |
| Calendar.DateInYear | src/modules/weekPlan.ts:1138 | the date of a day of a year is valid, lies in that year and has that day number |
| Calendar.Civil | src/modules/weekPlan.ts:1138 | the year, month and day of a day number form a valid date with that day number |
| Calendar.CivilOfDate | src/modules/weekPlan.ts:1138 | every valid date is the date of its own day number |
| Calendar.DateBounds | src/modules/weekPlan.ts:1138 | a valid date lies in its year and in its month |
| Calendar.CivilInjective | src/modules/weekPlan.ts:1138 | different days have different dates |
| Calendar.IsoYear | src/modules/weekPlan.ts:1128 | the year field of `toISOString` has four characters for years 0..9999 and at least four otherwise |
| Calendar.IsoString | src/modules/weekPlan.ts:1128 | `toISOString` is at least ten characters long, so `slice(0, 10)` takes ten |
| Calendar.IsoDatePart | src/modules/weekPlan.ts:1128 | for years 0..9999, the first ten characters of `toISOString` are `YYYY-MM-DD` of the instant's date |
| Calendar.WeekKey | src/modules/weekPlan.ts:1126-1129 | the week key is the prefix `extensions.zotero.zoteroplan.week.` followed by exactly ten characters |
| Calendar.WeekKeySameWeek | src/modules/weekPlan.ts:1126-1129 | for weeks starting in years 0..9999, two instants have the same week key if and only if they have the same start of week |
| Calendar.DateTextInjective | src/modules/weekPlan.ts:1128 | `YYYY-MM-DD` text determines the date, for years 0..9999 |
| Calendar.IsoMonthPart | src/modules/weekPlan.ts:1128 | for years 10000..999999 the ten characters taken end with the month, not the day |
| Calendar.WeekKeyOfMonday | src/modules/weekPlan.ts:1126-1129 | the key of an instant in the week starting on Monday `n` is the prefix followed by the date part of that Monday's midnight |
| Calendar.WeekKeyCollidesInYear10000 | src/modules/weekPlan.ts:1126-1129 | the weeks starting on 3 and 10 January 10000 are different weeks with the same week key |
| Calendar.SameWeekSameLabels | src/modules/weekPlan.ts:1126-1139 | two instants of one week share their week key and their `fmtRange` label |
| Calendar.FmtRange | src/modules/weekPlan.ts:1134-1139 | the label is `M/D ~ M/D` of a Monday whose seven days hold `t` and of the Sunday six days after it |
| Calendar.FmtRangeOfWeek | src/modules/weekPlan.ts:1134-1139 | for the one Monday `m` whose seven days hold `t`, the label is the month and day of `m`, then ` ~ `, then the month and day of `m + 6` |
| Calendar.ThursdayOfWeek | src/modules/weekPlan.ts:1146 | `+ 4 - (getUTCDay() \|\| 7)` reaches the Thursday of the Monday-to-Sunday week |
| Calendar.UtcDayOfDate | src/modules/weekPlan.ts:1145 | outside years 0..99, `Date.UTC(year, month, day)` is the day number of that date |
| Calendar.UtcDateOfPlainDay | src/modules/weekPlan.ts:1145 | outside years 0..99, the day rebuilt with `Date.UTC` from a date's year, month and day is the day itself |
| Calendar.WeekNumber | src/modules/weekPlan.ts:1144-1149 | outside years 0..99 the date that `getWeekNumber` rebuilds with `Date.UTC` is the date itself, so the week number is the one counted from that day |
| Calendar.WeekNumberOfDay | src/modules/weekPlan.ts:1145-1148 | the same, for the date of a day number |
| Calendar.IsoWeek | src/modules/weekPlan.ts:1144-1149 | the reference ISO 8601 week number, counted from the week holding 4 January of the week-numbering year, lies in 1..53 |
| Calendar.WeekNumberOfUtcDayIsIso | src/modules/weekPlan.ts:1146-1148 | from a day rebuilt by `Date.UTC`, when the week-numbering year is not in 0..99, the rest of `getWeekNumber` gives the ISO 8601 week number, in 1..53 |
| Calendar.WeekOneCount | src/modules/weekPlan.ts:1148 | for a Monday whose Thursday lies in a year, counting weeks from 1 January of that year and counting Mondays from the Monday of the week holding 4 January agree, and the count is in 1..53 |
| Calendar.WeekNumberIsIso | src/modules/weekPlan.ts:1144-1149 | when neither the date nor its ISO week-numbering year is in years 0..99, `getWeekNumber` equals the ISO 8601 week number (counted from the week holding 4 January of that year), and lies in 1..53 |
| Calendar.WeekNumberOfDayIsIso | src/modules/weekPlan.ts:1145-1148 | when neither the day's date nor its ISO week-numbering year is in years 0..99, the week number of the day equals its ISO 8601 week number and lies in 1..53 |
| Calendar.WeeksFromWeekOne | src/modules/weekPlan.ts:1148 | the whole weeks from the Monday of week 1 to the Monday of a week are the whole weeks from 1 January to that week's Thursday, and the source's round-up lies in 1..53 |
| Calendar.WeekNumberOf2021January1 | src/modules/weekPlan.ts:1144-1149 | day 18628 is Friday 1 January 2021, and it is in week 53 |
| Calendar.WeekNumberOf2022January3 | src/modules/weekPlan.ts:1144-1149 | day 18995 is Monday 3 January 2022, and it is in week 1 |
| Calendar.WeekNumberOfYear100January1 | src/modules/weekPlan.ts:1144-1149 | day -683003 is 1 January of year 100; `Date.UTC` reads the Thursday's year 99 as 1999, so the source's week number there is -99085, while its ISO 8601 week is 53 |
| Strings.FirstNonWhite | src/modules/weekPlan.ts:728 | where `trim` starts: the first character from an index on that is not white space, with only white space before it, or the end of the string |
| Strings.EndNonWhite | src/modules/weekPlan.ts:728 | where `trim` ends: just past the last character of a range that is not white space, with only white space after it, or the start of the range |
| Strings.Trim | src/modules/weekPlan.ts:728 | `trim` gives a slice of the string with white space only on either side, which neither starts nor ends with white space, and which is empty exactly when the string is all white space |
| Strings.TrimIdempotent | src/modules/weekPlan.ts:741 | trimming a trimmed string changes nothing |
| Strings.ToLower | src/modules/weekPlan.ts:1042 | `toLowerCase` keeps the length and lowers each character |
| Strings.ToLowerIdempotent | src/modules/weekPlan.ts:1042 | lowering a lowered string changes nothing |
| Strings.IndexFrom | src/modules/weekPlan.ts:1058 | `indexOf` from an index gives the first match at or after it, or -1 when there is none |
| Strings.IndexOfIsSubstring | src/modules/weekPlan.ts:1058 | `indexOf(q) >= 0` holds exactly when `q` occurs in the string |
| Strings.Split | src/modules/weekPlan.ts:590 | `split(",")` gives at least one piece, and no piece holds a comma |
| Strings.JoinSplit | src/modules/weekPlan.ts:590 | joining the pieces of a split with the separator gives back the string |
| Strings.SplitJoin | src/modules/weekPlan.ts:590 | splitting a join of comma-free pieces gives back the pieces |
| Strings.NonBlank | src/modules/weekPlan.ts:590 | `filter(t => t.trim())` keeps only pieces of the input, none of them blank, and no more pieces than there are |
| Strings.NonBlankAppend | src/modules/weekPlan.ts:590 | the filter of a concatenation is the concatenation of the filters, and a single piece is kept exactly when it is not blank; so every non-blank piece is kept, in order |
| Strings.NonBlankMembers | src/modules/weekPlan.ts:590 | a piece is in the filtered list exactly when it is in the input and not blank |
| Strings.NonBlankKeepsAll | src/modules/weekPlan.ts:590 | the filter keeps every piece when none is blank |
| Strings.Decimal | src/modules/weekPlan.ts:1128 | zero-padded decimal rendering: exactly `width` characters when the number fits, never fewer than `width` |
| Strings.DecimalValue | src/modules/weekPlan.ts:1128 | the digits of the zero-padded rendering, read as a decimal number, give back the number |
| Strings.DecimalDigits | src/modules/weekPlan.ts:1128 | the rendering holds only the digits 0-9 |
| Strings.DecimalInjective | src/modules/weekPlan.ts:1128 | different numbers have different zero-padded renderings of one width |
| Tasks.ColumnNamesDistinct | src/modules/weekPlan.ts:36 | the four column names differ from each other |
| Tasks.TaskId | src/modules/weekPlan.ts:623 | a generated id starts with `task_` |
| Tasks.OrElse | src/modules/weekPlan.ts:623-625 | `s \|\| fallback` on strings is one of the two, and is not empty unless both are |
| Tasks.RenderTask | src/modules/weekPlan.ts:618-646 | `renderTask` keeps the text; it keeps the id, or uses the generated id when there is none; it keeps the creation time, or uses `now`; it keeps a non-empty priority, or uses `"none"`; it joins non-empty tags with commas and writes no tags attribute otherwise; it copies the note; and the card is neither dragged nor hidden |
| Tasks.CardTask | src/modules/weekPlan.ts:579-596 | the task saved from a card has its id and text; its creation time, or `now` when it has none; its priority, or `"none"` when it has none; tags exactly when the card has a tags attribute, and then the non-blank pieces of that attribute split at commas; and its note exactly when the note is not empty |
| Tasks.SaveOfRenderedTask | src/modules/weekPlan.ts:579-596 | a task with an id, a creation time and a priority, whose tags are non-blank and comma-free and whose note is absent or not empty, is saved back unchanged after rendering |
| Tasks.RenderOfSavedCard | src/modules/weekPlan.ts:618-634 | a card with an id, a creation time, a priority and non-blank tag pieces, not dragged and not hidden, renders back unchanged after saving |
| Tasks.SaveColumn | src/modules/weekPlan.ts:573-602 | a saved column holds only task records, at most one per card |
| Tasks.LoadColumn | src/modules/weekPlan.ts:538-549 | a loaded column has at most one card per stored entry, and each card is neither dragged nor hidden and has a priority |
| Tasks.SaveColumnKeepsAll | src/modules/weekPlan.ts:580 | when every card has an id, every card is saved |
| Tasks.SaveColumnSavesCards | src/modules/weekPlan.ts:573-602 | a saved column has one entry per card with an id, and entry `j` is the task saved from the `j`-th such card |
| Tasks.LoadOfSavedColumn | src/modules/weekPlan.ts:538-602 | a column of such cards, saved and then loaded, is the same column |
| Tasks.LoadColumnCount | src/modules/weekPlan.ts:538-549 | loading drops exactly the entries that are not records |
| Tasks.LoadColumnRendersRecords | src/modules/weekPlan.ts:538-549 | card `i` of a loaded column renders record `i` of the stored entries: its text, its id when it has one, and `"none"` for a missing priority |
| Board.FlattenLength | src/modules/weekPlan.ts:846-872 | the cards of all columns in document order number the board's total |
| Board.RemoveAt | src/modules/weekPlan.ts:692 | `remove()` takes exactly that one element out and keeps the others in order |
| Board.InsertAt | src/modules/weekPlan.ts:802-806 | `insertBefore` puts the element at the position and shifts the later ones by one |
| Board.Landing | src/modules/weekPlan.ts:802-806 | the dragged card lands at the end of the target list without it, or at the position that the chosen card has in that list once the dragged card is taken out |
| Board.RemoveInsert | src/modules/weekPlan.ts:802-806 | removing what was just inserted gives back the list |
| Board.FlattenUpdate | src/modules/weekPlan.ts:795-807 | replacing one column changes the board's cards and total by exactly the cards of the old and new column |
| Board.DeleteCard | src/modules/weekPlan.ts:690-694 | the delete handler removes card `i` from column `c` and leaves every other column unchanged |
| Board.DeleteRemovesOne | src/modules/weekPlan.ts:690-694 | deleting takes exactly that one card off the board, and the total drops by one |
| Board.MoveCard | src/modules/weekPlan.ts:795-807 | the dragover move changes only the source and target columns |
| Board.MoveKeepsCards | src/modules/weekPlan.ts:795-807 | the move keeps the multiset of cards of the board, so the total is unchanged |
| Board.MovePlacesCard | src/modules/weekPlan.ts:802-806 | the dragged card lands in the target column, immediately before the chosen card or at the end of the list |
| Board.MoveKeepsOthersInOrder | src/modules/weekPlan.ts:795-807 | every other card keeps its column and its order |
| Drag.AfterElementUpTo | src/modules/weekPlan.ts:828-840 | the fold over a prefix of the cards picks a candidate with a negative offset that is largest, and earlier ones only with a smaller offset; it gives null exactly when there is no candidate |
| Drag.AfterElement | src/modules/weekPlan.ts:819-841 | `getDragAfterElement` gives a card that is not being dragged and whose middle lies below the pointer, the one with the largest negative offset, the earliest on a tie; it gives null exactly when no such card exists |
| Drag.FirstDragging | src/modules/weekPlan.ts:797 | the first dragged card of a column from an index on, or none exactly when none is dragged |
| Drag.FindDraggingFrom | src/modules/weekPlan.ts:797 | `querySelector` over the columns from `c` on finds the first dragged card in document order, or none exactly when none is dragged |
| Drag.FindDragging | src/modules/weekPlan.ts:797-798 | `querySelector(".zoteroplan-task-dragging")` finds the first dragged card of the board in document order, or nothing exactly when no card is dragged |
| Search.VisibleIffSubstring | src/modules/weekPlan.ts:1058 | a card is shown exactly when the query is empty or occurs in its lowercased text |
| Search.VisibleIgnoresCase | src/modules/weekPlan.ts:1042 | two texts that differ only in letter case are shown or hidden together under a lowercased query |
| Search.Visible | src/modules/weekPlan.ts:1058 | an empty query shows every card, and a shown card's text is at least as long as the query |
| Search.FilterColumn | src/modules/weekPlan.ts:1052-1062 | the filter hides exactly the non-matching cards and changes nothing else of a column, neither its order nor its cards |
| Search.FilterBoard | src/modules/weekPlan.ts:1049-1063 | the filter applies to each column separately |
| Search.FilterIdempotent | src/modules/weekPlan.ts:1049-1063 | filtering twice with one query is filtering once |
| Search.FilterKeepsTotal | src/modules/weekPlan.ts:1049-1063 | the filter keeps the total and every column's count |
| Search.FilterKeepsCounts | src/modules/weekPlan.ts:1049-1063 | the counters and statistics of a filtered board are those of the board |
| Stats.ColumnCounts | src/modules/weekPlan.ts:856-857 | each column's count is the number of cards in its list |
| Stats.SumOfColumnCounts | src/modules/weekPlan.ts:860 | the column counts add up to the total |
| Stats.ColumnAtMostTotal | src/modules/weekPlan.ts:860-863 | no column has more cards than the total |
| Stats.RoundPercent | src/modules/weekPlan.ts:900 | progress is 0 for an empty board, and at most 100 when no more cards are done than there are cards |
| Stats.RoundPercentNearest | src/modules/weekPlan.ts:900 | for a non-empty board, progress is within half a percent of `100 * done / total` |
| Stats.RoundingBounds | src/modules/weekPlan.ts:900 | the rounded quotient is within half a step of the exact ratio, and in 0..100 when done ≤ total |
| Stats.CountsOfAgree | src/modules/weekPlan.ts:846-906 | for any board, the total is the sum of the four counts, the done count is the `done` column's length and at most the total, and the progress is the rounded percentage, in 0..100 |
| Stats.NothingCounted | src/modules/weekPlan.ts:846-906 | the all-zero numbers agree with each other |
| Stats.ClearedNumbers | src/modules/weekPlan.ts:1003-1011 | after clearing, the counters and the statistics show zero for every column and the total, and 0 % progress |
| Stats.MoveKeepsTotal | src/modules/weekPlan.ts:795-807 | after a dragover move, the counters and statistics show the same total |
| Store.LoadBoard | src/modules/weekPlan.ts:533-550 | each of the four lists is the loaded form of `data[col] \|\| []` |
| Store.EmptyShown | src/modules/weekPlan.ts:538-541 | a list shows the empty state exactly when every stored entry of its column is falsy |
| Store.LoadMissingWeek | src/modules/weekPlan.ts:515-530 | a missing key, an unusable value, a configuration object or any other value that is not a board object loads as four empty columns, each showing the empty state |
| Store.StoredWeek | src/modules/weekPlan.ts:515-530 | each column field of the loaded data is the stored board object's own field, and is empty when the key is missing, when the stored text is not usable JSON, or when it parses to something other than a board object |
| Store.SavedColumns | src/modules/weekPlan.ts:573-603 | each saved column is the saved form of its list |
| Store.FillKeys | src/modules/weekPlan.ts:566-603 | filling the four fields of `data` adds no other field |
| Store.FillAt | src/modules/weekPlan.ts:602 | after `data[col] = tasks` for each column once, each field holds its column's tasks |
| Store.SaveBoardColumns | src/modules/weekPlan.ts:566-606 | the stored object has exactly the four column fields, each holding the saved column |
| Store.SaveBoard | src/modules/weekPlan.ts:566-606 | the object `saveForWeek` stores has exactly the four column fields |
| Store.LoadOfSavedBoard | src/modules/weekPlan.ts:512-613 | a board whose cards have ids, creation times, priorities and non-blank tag pieces, with none dragged or hidden, is the same board after saving and loading |
| Store.SaveColumnIgnoresHidden | src/modules/weekPlan.ts:577-599 | saving does not read a card's `display` |
| Store.SaveColumnIgnoresFilter | src/modules/weekPlan.ts:577-599 | saving a filtered column saves the column as it was |
| Store.SaveIgnoresFilter | src/modules/weekPlan.ts:562-613 | searching never changes what is stored for the week |
| Store.LoadUserConfig | src/modules/weekPlan.ts:57-67 | with nothing usable stored, the configuration stays as it was |
| Store.ConfigRoundTrip | src/modules/weekPlan.ts:42-79 | a saved configuration is what a new manager loads over the defaults |
| Store.WithUserConfig | src/modules/weekPlan.ts:72-79 | `saveUserConfig` writes the configuration key and changes no other key; the stored object, merged over the configuration, gives it back |
| Store.ConfigKeyIsNoWeekKey | src/modules/weekPlan.ts:59 | the configuration key is not the key of any week |
| Store.KeysApart | src/modules/weekPlan.ts:57-79 | saving a week leaves the loaded configuration unchanged, and saving the configuration leaves every stored week unchanged |
| Settings.Merge | src/modules/weekPlan.ts:62 | `{ ...config, ...stored }`: every stored field replaces the current one, and every field not stored keeps its value |
| Settings.MergeSaved | src/modules/weekPlan.ts:62 | merging a saved configuration gives it back, unless the configuration merged into has an avatar and the saved one has none |
| Settings.MergeNothing | src/modules/weekPlan.ts:62 | merging an empty object keeps every field |
| Settings.ToPatch | src/modules/weekPlan.ts:75 | `JSON.stringify(userConfig)` has every field except an absent avatar, and merging it over the same configuration changes nothing |
| Settings.Edited | src/modules/weekPlan.ts:1084-1086 | a cancelled or blank answer keeps the current value; any other answer gives its trimmed text, which is non-blank and already trimmed |
| WeekPlan.ColumnIndex | src/modules/weekPlan.ts:730-731 | the list found for a column name is that column's, and none is found for a name that is no column |
| WeekPlan.LoadIds | src/modules/weekPlan.ts:623 | every id generated during a load starts with `task_` |
| WeekPlan.NewCard | src/modules/weekPlan.ts:739-746 | the new card has the generated id, the trimmed text, the `now` creation time, priority `"none"`, no tags and no note |
| WeekPlan.NewCardStable | src/modules/weekPlan.ts:739-746 | a new card is stored and loaded back unchanged |
| WeekPlan.RenderColumn | src/modules/weekPlan.ts:538-549 | the inner loop of `loadForWeek` builds the loaded column |
| WeekPlan.RenderLists | src/modules/weekPlan.ts:533-550 | the loops of `loadForWeek` build the loaded board and the empty-state flags |
| WeekPlan.CollectColumn | src/modules/weekPlan.ts:574-600 | the inner loop of `saveForWeek` builds the saved column |
| WeekPlan.CollectLists | src/modules/weekPlan.ts:566-603 | the loops of `saveForWeek` build the stored object |
| WeekPlan.WeekPlanManager.constructor | src/modules/weekPlan.ts:35-52 | a new manager starts with the current date, with the defaults merged with the stored configuration, an empty query, hidden statistics and empty lists |
| WeekPlan.WeekPlanManager.CountTasks | src/modules/weekPlan.ts:849-864 | the counting loop gives each list's count, their total and the `done` list's count |
| WeekPlan.WeekPlanManager.UpdateTaskCounts | src/modules/weekPlan.ts:846-872 | the counters show the board's numbers |
| WeekPlan.WeekPlanManager.Summarize | src/modules/weekPlan.ts:880-900 | the statistics loop gives the total, each list's count and the rounded progress |
| WeekPlan.WeekPlanManager.UpdateStats | src/modules/weekPlan.ts:877-906 | the statistics panel shows the board's numbers |
| WeekPlan.WeekPlanManager.ApplySearchFilter | src/modules/weekPlan.ts:1049-1063 | every card is hidden exactly when it does not match the query, and nothing else changes |
| WeekPlan.WeekPlanManager.LoadForWeek | src/modules/weekPlan.ts:512-557 | the panel shows the stored data of the current week: the lists refilled and filtered, the empty states, and up-to-date numbers |
| WeekPlan.WeekPlanManager.Render | src/modules/weekPlan.ts:533-556 | the panel shows the given data, filtered by the query, with up-to-date numbers |
| WeekPlan.WeekPlanManager.SaveForWeek | src/modules/weekPlan.ts:562-613 | with auto-save on, the saved board goes under the current week's key and the numbers are refreshed; with auto-save off, nothing changes |
| WeekPlan.WeekPlanManager.SaveUnder | src/modules/weekPlan.ts:563-613 | with auto-save on, the saved board goes under the given key and the numbers are refreshed; with auto-save off, nothing changes |
| WeekPlan.WeekPlanManager.StoreWeek | src/modules/weekPlan.ts:565-609 | the store gains, under the given key (the current week's), the saved form of the board, and nothing else in the manager changes |
| WeekPlan.WeekPlanManager.Refresh | src/modules/weekPlan.ts:611-612 | the counters and the statistics become those of the board, which does not change |
| WeekPlan.WeekPlanManager.AddTask | src/modules/weekPlan.ts:727-757 | blank text or an unknown column changes nothing; otherwise the column loses its empty state and gets one new card at its end, the other columns and earlier cards are unchanged, and the week is saved |
| WeekPlan.WeekPlanManager.Append | src/modules/weekPlan.ts:733-749 | the column loses its empty state and gets the card at its end |
| WeekPlan.WeekPlanManager.Delete | src/modules/weekPlan.ts:690-694 | when confirmed, exactly that card is removed and the week saved; otherwise nothing changes |
| WeekPlan.WeekPlanManager.ClearCurrentWeek | src/modules/weekPlan.ts:996-1012 | when confirmed, all four lists are empty, each shows the empty state, and the week is saved; with auto-save on, the counters and statistics then show zero; otherwise nothing changes |
| WeekPlan.WeekPlanManager.DragStart | src/modules/weekPlan.ts:702-709 | the card gets the dragging class, and nothing else changes |
| WeekPlan.WeekPlanManager.DragEnd | src/modules/weekPlan.ts:711-713 | the card loses the dragging class, and nothing else changes |
| WeekPlan.WeekPlanManager.DragOver | src/modules/weekPlan.ts:795-807 | with no dragged card nothing changes; otherwise the first dragged card moves before the card `getDragAfterElement` picks in the target list, or to its end; nothing is saved |
| WeekPlan.WeekPlanManager.Drop | src/modules/weekPlan.ts:809-812 | the drop handler saves the week |
| WeekPlan.WeekPlanManager.EditText | src/modules/weekPlan.ts:646-648 | the card gets the edited text, and the week is saved on `blur` |
| WeekPlan.WeekPlanManager.PrevWeek | src/modules/weekPlan.ts:970-974 | the date moves seven days back, and the panel shows that week's stored data |
| WeekPlan.WeekPlanManager.NextWeek | src/modules/weekPlan.ts:979-983 | the date moves seven days on, and the panel shows that week's stored data |
| WeekPlan.WeekPlanManager.GoToToday | src/modules/weekPlan.ts:988-991 | the date becomes the clock reading, and the panel shows that week's stored data |
| WeekPlan.WeekPlanManager.SaveUserConfig | src/modules/weekPlan.ts:72-79 | the configuration is written under its key |
| WeekPlan.WeekPlanManager.ToggleTheme | src/modules/weekPlan.ts:1017-1019 | the theme becomes dark or light according to the flag, the other fields keep their values, and the configuration is saved |
| WeekPlan.WeekPlanManager.ToggleStats | src/modules/weekPlan.ts:1030-1031 | the statistics flag flips, so two toggles restore it |
| WeekPlan.WeekPlanManager.OnSearch | src/modules/weekPlan.ts:1041-1044 | the query is stored lowercased, and the filter is applied with it |
| WeekPlan.WeekPlanManager.EditUserId | src/modules/weekPlan.ts:1083-1088 | a cancelled or blank answer changes nothing; otherwise the trimmed answer becomes the user id and the configuration is saved |
| WeekPlan.WeekPlanManager.EditMotto | src/modules/weekPlan.ts:1099-1104 | a cancelled or blank answer changes nothing; otherwise the trimmed answer becomes the motto and the configuration is saved |

## Left out

- The DOM: building the panel, the user card, the header, the toolbar, the statistics
  panel and the columns, the style sheet, the empty-state element's contents and the
  `newly-added` class with its timer. The model keeps just what the handlers read and
  write: the cards of each list and whether the list shows the empty state.
- The DOM text the handlers write is left out too: the week label
  (`updateWeekLabel`), the user id, the motto, and the `data-theme` attribute.
  `FmtRange` and `WeekNumber` give the texts the week label shows.
- The state with no panel mounted. `panelDoc` is null only before `createPlanPanel`
  sets it (src/modules/weekPlan.ts:86), and no handler can fire then, since each is
  attached to an element of the panel. The model starts with the panel built: the
  constructor gives four empty lists, and `loadForWeek` fills them. The early returns
  on a null `panelDoc` (lines 513, 563, 728, 1001, 1050) are therefore not modelled.
- The live clock, `updateCurrentDate`, and the locale formatting in `toLocaleDateString`,
  `toLocaleTimeString` and the card's timestamp.
- `uploadAvatar`: a stub that stores a fixed file name.
- The `confirm` and `prompt` dialogs. Their answers become parameters of the handlers.
- The clock and `Math.random`. `Date.now()`, `new Date().toISOString()` and the random
  id suffix become parameters. The model does not tie `now` to `clock`, and it does not
  require generated ids to be fresh.
- JSON text. The store holds parsed values:
  - nothing usable;
  - a board object with its column arrays;
  - a configuration object;
  - any other value except `null` (an array, a number, a string, a boolean). It has no
    column fields, so `data[col] || []` loads an empty column.

  Stored text that parses to `null` is not modelled: `data[col]` then throws, and the
  source does not guard that case.
- A column field holding a truthy value that is not an array (`{"planning": "x"}`,
  `{"planning": 5}`) is not modelled: `.filter` then throws. A falsy column field
  (`0`, `""`, `false`, `null`) reads like a missing one, and the model leaves such a
  field out of `columns`.
- Time zones. Every instant is at a zero offset, so local time and UTC agree.
  - In a zone with a positive offset, `weekKey` takes the date of the preceding
    Sunday's UTC time.
  - The valid range of JavaScript dates (±8.64e15 ms) is not modelled either.
- Floating point. Card boxes are integer pixels. Progress is computed in exact
  arithmetic.
- RoundPercent: exact arithmetic, halves rounded up. `Math.round` of the floating-point
  quotient times 100 can differ from it when that product is not exact.
- Strings.ToLower: `toLowerCase` is modelled on the ASCII letters only (`Strings.LowerChar`);
  other characters are kept as they are.
- Calendar.WeekKeySameWeek: in the source, a week key is unique to its week only for
  weeks starting in years 0..9999. Beyond that, `toISOString` writes a six-digit year
  with a sign, and `slice(0, 10)` cuts the day off, so different weeks share a key
  (`Calendar.WeekKeyCollidesInYear10000`).
- PrevWeek, NextWeek: the methods state the ±7-day change of the current date. That
  the start of the week moves by exactly seven days is stated separately by
  `Calendar.StartOfPrevWeek` and `Calendar.StartOfNextWeek`.
- WeekPlan.WeekPlanManager.StoreWeek, WeekPlan.WeekPlanManager.SaveUserConfig: a
  `Zotero.Prefs.set` that throws is not modelled. The source catches and logs the error
  (lines 605-609 and 73-78) and keeps the old value; `saveForWeek` still refreshes the
  counters and statistics afterwards. In the model the store always takes the write.
- WeekPlan.WeekPlanManager.Valid: the counters and statistics are refreshed only at the
  end of `saveForWeek` and in `loadForWeek` (`updateTaskCounts`, `updateStats`), so they
  stay stale after `AddTask`, `Delete` and `ClearCurrentWeek` with auto-save off
  (`SavedUnder` keeps `counts` and `summary` then), and after `DragOver` until the drop.
  `Valid()` therefore promises only that the numbers agree with each other
  (`CountsAgree`), not that they match the lists (`Fresh()`).
- Delete: this follows the code. A list emptied by deleting does not get the
  empty-state element back until the next load.
- Stored task fields other than `id`, `text`, `created`, `priority`, `tags` and `note`.
  JSON values of the wrong type inside a task are also left out.
- Calendar.WeekNumberIsIso: `Date.UTC` reads the years 0..99 as 1900 + year, both for
  the date and for 1 January of the Thursday's year. There the source's week number is
  not the ISO week: 15 June 99 gets the week of 15 June 1999 (24), while its ISO week
  is 25, and 1 January 100 gets -99085 (`Calendar.WeekNumberOfYear100January1`). The
  lemma therefore requires that neither the date nor its week-numbering year lies in
  0..99. `Calendar.WeekNumber` models the mapping itself (`Calendar.UtcYear`).
- Calendar.WeekNumberOfDayIsIso: the same restriction, for the same reason.
- `src/hooks.ts` (plugin start-up, menus, windows) and `typings/global.d.ts` (type
  declarations) are not part of this model.

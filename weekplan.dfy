/** `WeekPlanManager`: the state behind the weekly plan panel and the handlers
    that change it. The four column lists of the panel are the field `lists`; the
    empty-state element a list may show (always its first child) is `emptyState`;
    the numbers on the panel are `counts` and `summary`; the preference store is
    `prefs`. The clock, the random part of generated ids and the answers of the
    `confirm`/`prompt` dialogs are parameters of the handlers. */
module WeekPlan {
  import opened Wrappers
  import opened Strings
  import opened Calendar
  import opened Tasks
  import opened Board
  import opened Drag
  import opened Stats
  import opened Search
  import opened Settings
  import opened Store

  /** The ids `renderTask` generates during a load at clock reading `clock`:
      `task_${clock}_${random(c, k)}` for entry `k` of column `c`. */
  function LoadIds(clock: nat, random: (nat, nat) -> string): (r: (nat, nat) -> string)
    ensures forall c: nat, k: nat :: |r(c, k)| > 5 && r(c, k)[..5] == "task_"
  {
    var r := (c: nat, k: nat) => TaskId(clock, random(c, k));
    assert forall c: nat, k: nat :: r(c, k) == TaskId(clock, random(c, k));
    r
  }

  /** The column whose list `getElementById("zoteroplan-" + column + "List")` finds. */
  function ColumnIndex(column: string): (r: Option<nat>)
    ensures r.Some? ==> r.value < |ColumnNames| && ColumnNames[r.value] == column
    ensures r.None? ==> column !in ColumnNames
  {
    if column == ColumnNames[0] then Some(0)
    else if column == ColumnNames[1] then Some(1)
    else if column == ColumnNames[2] then Some(2)
    else if column == ColumnNames[3] then Some(3)
    else None
  }

  /** The card `addTask` appends for `text`, with `Date.now()` reading `clock` and
      `new Date().toISOString()` reading `now`. */
  function NewCard(text: string, clock: nat, random: string, now: string): (c: Card)
    ensures c.id == TaskId(clock, random) && c.text == Trim(text) && c.created == now
    ensures c.priority == NoPriority && c.tags == "" && c.note == ""
    ensures !c.dragging && !c.hidden
  {
    RenderTask(Task(TaskId(clock, random), Trim(text), now, Some(NoPriority), None, None), TaskId(clock, random), now)
  }

  /** A new card is stored and loaded back unchanged. */
  lemma NewCardStable(text: string, clock: nat, random: string, now: string)
    requires now != ""
    ensures StableCard(NewCard(text, clock, random, now))
  {
  }

  /** The inner loop of `loadForWeek`: the cards `renderTask` makes for the
      entries of one column that are records. */
  method RenderColumn(entries: seq<Entry>, ids: nat -> string, now: string) returns (col: seq<Card>)
    ensures col == LoadColumn(entries, ids, now)
  {
    col := [];
    var k := 0;
    while k < |entries|
      invariant 0 <= k <= |entries|
      invariant col == LoadColumn(entries[..k], ids, now)
    {
      assert entries[..k + 1][..k] == entries[..k];
      if entries[k].Record? {
        col := col + [RenderTask(entries[k].task, ids(k), now)];
      }
      k := k + 1;
    }
    assert entries[..k] == entries;
  }

  /** The loops of `loadForWeek`: for each column, the cards `renderTask` appends
      for its stored entries, and whether the empty state is shown. */
  method RenderLists(data: map<string, seq<Entry>>, ids: (nat, nat) -> string, now: string) returns (board: Lists, shown: seq<bool>)
    ensures board == LoadBoard(data, ids, now) && shown == EmptyShown(data)
  {
    ghost var want, wantShown := LoadBoard(data, ids, now), EmptyShown(data);
    board := [];
    shown := [];
    var c := 0;
    while c < |ColumnNames|
      invariant 0 <= c <= |ColumnNames| && |board| == c && |shown| == c
      invariant forall j :: 0 <= j < c ==> board[j] == want[j]
      invariant forall j :: 0 <= j < c ==> shown[j] == wantShown[j]
    {
      var entries := ColumnEntries(data, ColumnNames[c]);
      var col := RenderColumn(entries, ColumnIds(ids, c), now);
      assert col == want[c] && AllFalsy(entries) == wantShown[c];
      board := board + [col];
      shown := shown + [AllFalsy(entries)];
      c := c + 1;
    }
  }

  /** The inner loop of `saveForWeek`: the tasks of the cards of one list that
      have an id. */
  method CollectColumn(col: seq<Card>, now: string) returns (tasks: seq<Entry>)
    ensures tasks == SaveColumn(col, now)
  {
    tasks := [];
    var j := 0;
    while j < |col|
      invariant 0 <= j <= |col|
      invariant tasks == SaveColumn(col[..j], now)
    {
      assert col[..j + 1][..j] == col[..j];
      if col[j].id != "" {
        tasks := tasks + [Record(CardTask(col[j], now))];
      }
      j := j + 1;
    }
    assert col[..j] == col;
  }

  /** The loops of `saveForWeek`: the object with, for each column, the tasks of
      its cards that have an id. */
  method CollectLists(b: Lists, now: string) returns (data: map<string, seq<Entry>>)
    requires |b| == |ColumnNames|
    ensures data == SaveBoard(b, now)
  {
    data := EmptyData;
    var c := 0;
    while c < |ColumnNames|
      invariant 0 <= c <= |ColumnNames|
      invariant data == SaveBoardUpTo(b, c, now)
    {
      var tasks := CollectColumn(b[c], now);
      assert SaveBoardUpTo(b, c + 1, now) == SaveBoardUpTo(b, c, now)[ColumnNames[c] := tasks];
      data := data[ColumnNames[c] := tasks];
      c := c + 1;
    }
  }

  class WeekPlanManager {
    var currentWeek: int
    var lists: Lists
    var emptyState: seq<bool>
    var prefs: Prefs
    var searchQuery: string
    var showStats: bool
    var userConfig: UserConfig
    var counts: Counts
    var summary: Summary

    /** Four lists, and numbers on the panel that agree with each other. */
    ghost predicate Valid()
      reads this
    {
      |lists| == |ColumnNames| && |emptyState| == |ColumnNames| && CountsAgree(counts) && SummaryAgrees(summary)
    }

    /** The numbers on the panel are those of the board. */
    ghost predicate Fresh()
      reads this
    {
      |lists| == |ColumnNames| && counts == CountsOf(lists) && summary == SummaryOf(lists)
    }

    /** The panel shows `data` as `loadForWeek` renders it, with `Date.now()`
        reading `clock` and the ISO text `now` of the clock: the cards filtered by the
        current query, the empty states, and up-to-date numbers. */
    ghost predicate Shows(data: map<string, seq<Entry>>, clock: nat, random: (nat, nat) -> string, now: string)
      reads this
    {
      && lists == FilterBoard(LoadBoard(data, LoadIds(clock, random), now), searchQuery)
      && emptyState == EmptyShown(data)
      && Fresh()
    }

    /** The panel shows the stored data of week `week`. */
    ghost predicate Loaded(week: int, clock: nat, random: (nat, nat) -> string, now: string)
      reads this
    {
      Shows(StoredWeek(prefs, WeekKey(week)), clock, random, now)
    }

    /** The outcome of `saveForWeek` at `now` in week `week`, from the store and
        numbers `p0`, `k0`, `s0`: with auto-save on, the board is stored under the
        week's key and the numbers are refreshed; with auto-save off, nothing
        happens. */
    ghost predicate Saved(p0: Prefs, k0: Counts, s0: Summary, week: int, now: string)
      reads this
    {
      SavedUnder(p0, k0, s0, WeekKey(week), now)
    }

    /** The outcome of `saveForWeek` with `key` for the week's key. */
    ghost predicate SavedUnder(p0: Prefs, k0: Counts, s0: Summary, key: string, now: string)
      reads this
    {
      && (userConfig.autoSave ==> |lists| == |ColumnNames| && prefs == p0[key := WeekJson(SaveBoard(lists, now))] && Fresh())
      && (!userConfig.autoSave ==> prefs == p0 && counts == k0 && summary == s0)
    }

    /** The constructor over store `store` with `new Date()` reading `clock`: the
        configuration is the defaults merged with the stored one (`loadUserConfig`),
        and the panel, not yet filled by `loadForWeek`, is empty. */
    constructor(store: Prefs, clock: int)
      ensures Valid() && lists == [[], [], [], []] && emptyState == [false, false, false, false]
      ensures prefs == store && currentWeek == clock && userConfig == LoadUserConfig(Defaults, store)
      ensures searchQuery == "" && !showStats
    {
      currentWeek := clock;
      prefs := store;
      searchQuery := "";
      showStats := false;
      userConfig := LoadUserConfig(Defaults, store);
      lists := [[], [], [], []];
      emptyState := [false, false, false, false];
      counts := Counts([0, 0, 0, 0], 0, 0);
      summary := Summary(0, [0, 0, 0, 0], 0);
      NothingCounted();
    }

    /** `updateTaskCounts` without the writes: the number of cards in each list, their
        total and the number in the done list. */
    method CountTasks() returns (r: Counts)
      requires |lists| == |ColumnNames|
      ensures r == CountsOf(lists)
    {
      var columns: seq<nat> := [];
      var total: nat := 0;
      var done: nat := 0;
      var c := 0;
      while c < |ColumnNames|
        invariant 0 <= c <= |ColumnNames|
        invariant columns == ColumnCounts(lists[..c])
        invariant total == TotalCount(lists[..c])
        invariant done == if c > Done then |lists[Done]| else 0
      {
        assert lists[..c + 1][..c] == lists[..c];
        var count := |lists[c]|;
        columns := columns + [count];
        total := total + count;
        if ColumnNames[c] == "done" {
          done := count;
        }
        c := c + 1;
      }
      assert lists[..c] == lists;
      r := Counts(columns, total, done);
    }

    /** `updateTaskCounts`. */
    method UpdateTaskCounts()
      requires Valid()
      modifies this`counts
      ensures Valid() && counts == CountsOf(lists)
    {
      CountsOfAgree(lists);
      counts := CountTasks();
    }

    /** `updateStats` without the writes: the total, the count of each list and the
        rounded percentage of done cards. */
    method Summarize() returns (s: Summary)
      requires |lists| == |ColumnNames|
      ensures s == SummaryOf(lists)
    {
      var total: nat := 0;
      var columns: seq<nat> := [];
      var c := 0;
      while c < |ColumnNames|
        invariant 0 <= c <= |ColumnNames|
        invariant columns == ColumnCounts(lists[..c])
        invariant total == TotalCount(lists[..c])
      {
        assert lists[..c + 1][..c] == lists[..c];
        var count := |lists[c]|;
        columns := columns + [count];
        total := total + count;
        c := c + 1;
      }
      assert lists[..c] == lists;
      var progress := if total > 0 then RoundPercent(columns[Done], total) else 0;
      s := Summary(total, columns, progress);
    }

    /** `updateStats`. */
    method UpdateStats()
      requires Valid()
      modifies this`summary
      ensures Valid() && summary == SummaryOf(lists)
    {
      CountsOfAgree(lists);
      summary := Summarize();
    }

    /** `applySearchFilter`: each card is hidden exactly when it does not match the
        query; nothing else about the board changes. */
    method ApplySearchFilter()
      requires Valid()
      modifies this`lists
      ensures Valid() && lists == FilterBoard(old(lists), searchQuery)
    {
      var c := 0;
      while c < |ColumnNames|
        invariant 0 <= c <= |ColumnNames| && |lists| == |ColumnNames|
        invariant forall j :: 0 <= j < c ==> lists[j] == FilterColumn(old(lists)[j], searchQuery)
        invariant forall j :: c <= j < |ColumnNames| ==> lists[j] == old(lists)[j]
      {
        var i := 0;
        while i < |lists[c]|
          invariant |lists| == |ColumnNames| && 0 <= i <= |lists[c]| && |lists[c]| == |old(lists)[c]|
          invariant forall j :: 0 <= j < i ==> lists[c][j] == FilterColumn(old(lists)[c], searchQuery)[j]
          invariant forall j :: i <= j < |lists[c]| ==> lists[c][j] == old(lists)[c][j]
          invariant forall j :: 0 <= j < c ==> lists[j] == FilterColumn(old(lists)[j], searchQuery)
          invariant forall j :: c < j < |ColumnNames| ==> lists[j] == old(lists)[j]
        {
          var card := lists[c][i];
          var visible := searchQuery == [] || IndexOf(ToLower(card.text), searchQuery) >= 0;
          lists := lists[c := lists[c][i := card.(hidden := !visible)]];
          i := i + 1;
        }
        assert lists[c] == FilterColumn(old(lists)[c], searchQuery);
        c := c + 1;
      }
    }

    /** `loadForWeek`: every list is emptied and refilled from the week's stored
        data; a list whose stored entries are all falsy shows the empty state. */
    method LoadForWeek(clock: nat, random: (nat, nat) -> string, now: string)
      requires Valid()
      modifies this`lists, this`emptyState, this`counts, this`summary
      ensures Valid() && Loaded(old(currentWeek), clock, random, now)
    {
      var data := StoredWeek(prefs, WeekKey(currentWeek));
      Render(data, clock, random, now);
    }

    /** The part of `loadForWeek` after the stored data is read: the lists are
        refilled from `data`, the numbers updated and the search filter applied. */
    method Render(data: map<string, seq<Entry>>, clock: nat, random: (nat, nat) -> string, now: string)
      requires Valid()
      modifies this`lists, this`emptyState, this`counts, this`summary
      ensures Valid() && Shows(data, clock, random, now)
    {
      var board, shown := RenderLists(data, LoadIds(clock, random), now);
      lists := board;
      emptyState := shown;
      UpdateTaskCounts();
      UpdateStats();
      ApplySearchFilter();
      FilterKeepsCounts(board, searchQuery);
    }

    /** `saveForWeek`: with auto-save on, the task of every card that has an id is
        stored under the week's key, and the numbers are refreshed. */
    method SaveForWeek(now: string)
      requires Valid()
      modifies this`prefs, this`counts, this`summary
      ensures Valid() && Saved(old(prefs), old(counts), old(summary), old(currentWeek), now)
    {
      SaveUnder(WeekKey(currentWeek), now);
    }

    /** `saveForWeek` once the week's key is computed. */
    method SaveUnder(key: string, now: string)
      requires Valid()
      modifies this`prefs, this`counts, this`summary
      ensures Valid() && SavedUnder(old(prefs), old(counts), old(summary), key, now)
    {
      if userConfig.autoSave {
        StoreWeek(key, now);
        Refresh();
      }
    }

    /** The `updateTaskCounts(); updateStats();` ending `saveForWeek`: the numbers
        become those of the board. */
    method Refresh()
      requires Valid()
      modifies this`counts, this`summary
      ensures Valid() && Fresh()
    {
      UpdateTaskCounts();
      UpdateStats();
    }

    /** The write of `saveForWeek`: the tasks of the board go under `key`. */
    method StoreWeek(key: string, now: string)
      requires Valid()
      modifies this`prefs
      ensures Valid() && prefs == old(prefs)[key := WeekJson(SaveBoard(lists, now))]
    {
      var data := CollectLists(lists, now);
      prefs := prefs[key := WeekJson(data)];
    }

    /** `addTask`: blank text, or a column with no list, changes nothing; otherwise
        the empty state leaves the column, one new card with the trimmed text and
        priority `"none"` goes to its end (shown whatever the query), and the week is
        saved. */
    method AddTask(column: string, text: string, clock: nat, random: string, now: string)
      requires Valid()
      modifies this`lists, this`emptyState, this`prefs, this`counts, this`summary
      ensures Valid()
      ensures IsBlank(text) || ColumnIndex(column).None? ==>
        lists == old(lists) && emptyState == old(emptyState) && prefs == old(prefs)
        && counts == old(counts) && summary == old(summary)
      ensures !IsBlank(text) && ColumnIndex(column).Some? ==>
        var c := ColumnIndex(column).value;
        && lists == old(lists)[c := old(lists)[c] + [NewCard(text, clock, random, now)]]
        && emptyState == old(emptyState)[c := false]
        && Saved(old(prefs), old(counts), old(summary), old(currentWeek), now)
    {
      if IsBlank(text) {
        return;
      }
      var found := ColumnIndex(column);
      if found.None? {
        return;
      }
      Append(found.value, NewCard(text, clock, random, now));
      SaveForWeek(now);
    }

    /** The DOM part of `addTask`: column `c` loses its empty state and gets `card`
        at its end. */
    method Append(c: nat, card: Card)
      requires Valid() && c < |ColumnNames|
      modifies this`lists, this`emptyState
      ensures Valid()
      ensures lists == old(lists)[c := old(lists)[c] + [card]] && emptyState == old(emptyState)[c := false]
    {
      emptyState := emptyState[c := false];
      lists := lists[c := lists[c] + [card]];
    }

    /** The delete button of card `i` in column `c`: when confirmed the card is
        removed and the week saved; the list does not get its empty state back. */
    method Delete(c: nat, i: nat, confirmed: bool, now: string)
      requires Valid() && c < |ColumnNames| && i < |lists[c]|
      modifies this`lists, this`prefs, this`counts, this`summary
      ensures Valid()
      ensures !confirmed ==> lists == old(lists) && prefs == old(prefs) && counts == old(counts) && summary == old(summary)
      ensures confirmed ==> lists == DeleteCard(old(lists), c, i) && Saved(old(prefs), old(counts), old(summary), old(currentWeek), now)
    {
      if confirmed {
        lists := DeleteCard(lists, c, i);
        SaveForWeek(now);
      }
    }

    /** `clearCurrentWeek`: when confirmed every list is emptied and shows the empty
        state, and the week is saved. */
    method ClearCurrentWeek(confirmed: bool, now: string)
      requires Valid()
      modifies this`lists, this`emptyState, this`prefs, this`counts, this`summary
      ensures Valid()
      ensures !confirmed ==>
        lists == old(lists) && emptyState == old(emptyState) && prefs == old(prefs)
        && counts == old(counts) && summary == old(summary)
      ensures confirmed ==>
        lists == [[], [], [], []] && emptyState == [true, true, true, true]
        && Saved(old(prefs), old(counts), old(summary), old(currentWeek), now)
      ensures confirmed && userConfig.autoSave ==>
        counts == Counts([0, 0, 0, 0], 0, 0) && summary == Summary(0, [0, 0, 0, 0], 0)
    {
      if !confirmed {
        return;
      }
      var c := 0;
      while c < |ColumnNames|
        invariant 0 <= c <= |ColumnNames| && |lists| == |ColumnNames| && |emptyState| == |ColumnNames|
        invariant forall j :: 0 <= j < c ==> lists[j] == [] && emptyState[j]
        invariant prefs == old(prefs) && counts == old(counts) && summary == old(summary)
      {
        lists := lists[c := []];
        emptyState := emptyState[c := true];
        c := c + 1;
      }
      assert lists == [[], [], [], []] && emptyState == [true, true, true, true];
      SaveForWeek(now);
      ClearedNumbers();
    }

    /** `dragstart` on card `i` of column `c`: it gets the dragging class. */
    method DragStart(c: nat, i: nat)
      requires Valid() && c < |ColumnNames| && i < |lists[c]|
      modifies this`lists
      ensures Valid() && lists == old(lists)[c := old(lists)[c][i := old(lists)[c][i].(dragging := true)]]
    {
      lists := lists[c := lists[c][i := lists[c][i].(dragging := true)]];
    }

    /** `dragend` on card `i` of column `c`: it loses the dragging class. */
    method DragEnd(c: nat, i: nat)
      requires Valid() && c < |ColumnNames| && i < |lists[c]|
      modifies this`lists
      ensures Valid() && lists == old(lists)[c := old(lists)[c][i := old(lists)[c][i].(dragging := false)]]
    {
      lists := lists[c := lists[c][i := lists[c][i].(dragging := false)]];
    }

    /** The `dragover` handler of list `target`, with the pointer at height `y` and
        `boxes` the boxes of that list's cards: the first dragged card of the board, if
        any, moves before the card `getDragAfterElement` picks, or to the end of the
        list. Nothing is saved. */
    method DragOver(target: nat, y: int, boxes: seq<Box>)
      requires Valid() && target < |ColumnNames| && |boxes| == |lists[target]|
      modifies this`lists
      ensures Valid()
      ensures FindDragging(old(lists)).None? ==> lists == old(lists)
      ensures FindDragging(old(lists)).Some? ==>
        var (c, i) := FindDragging(old(lists)).value;
        lists == MoveCard(old(lists), c, i, target, AfterElement(old(lists)[target], boxes, y))
    {
      var found := FindDragging(lists);
      if found.None? {
        return;
      }
      var (c, i) := found.value;
      var after := AfterElement(lists[target], boxes, y);
      lists := MoveCard(lists, c, i, target, after);
    }

    /** The `drop` handler: the week is saved. */
    method Drop(now: string)
      requires Valid()
      modifies this`prefs, this`counts, this`summary
      ensures Valid() && Saved(old(prefs), old(counts), old(summary), old(currentWeek), now)
    {
      SaveForWeek(now);
    }

    /** Editing the content of card `i` in column `c`, then leaving it (`blur`): the
        card gets the new text and the week is saved. */
    method EditText(c: nat, i: nat, text: string, now: string)
      requires Valid() && c < |ColumnNames| && i < |lists[c]|
      modifies this`lists, this`prefs, this`counts, this`summary
      ensures Valid()
      ensures lists == old(lists)[c := old(lists)[c][i := old(lists)[c][i].(text := text)]]
      ensures Saved(old(prefs), old(counts), old(summary), old(currentWeek), now)
    {
      lists := lists[c := lists[c][i := lists[c][i].(text := text)]];
      SaveForWeek(now);
    }

    /** `prevWeek`: seven days back, and that week is loaded (its start is seven days
        before the old start, by StartOfPrevWeek). */
    method PrevWeek(clock: nat, random: (nat, nat) -> string, now: string)
      requires Valid()
      modifies this`currentWeek, this`lists, this`emptyState, this`counts, this`summary
      ensures Valid() && currentWeek == old(currentWeek) - MsPerWeek
      ensures Loaded(old(currentWeek) - MsPerWeek, clock, random, now)
    {
      currentWeek := currentWeek - MsPerWeek;
      LoadForWeek(clock, random, now);
    }

    /** `nextWeek`: seven days on, and that week is loaded (its start is seven days
        after the old start, by StartOfNextWeek). */
    method NextWeek(clock: nat, random: (nat, nat) -> string, now: string)
      requires Valid()
      modifies this`currentWeek, this`lists, this`emptyState, this`counts, this`summary
      ensures Valid() && currentWeek == old(currentWeek) + MsPerWeek
      ensures Loaded(old(currentWeek) + MsPerWeek, clock, random, now)
    {
      currentWeek := currentWeek + MsPerWeek;
      LoadForWeek(clock, random, now);
    }

    /** `goToToday`: the current date becomes the clock reading, and its week is loaded. */
    method GoToToday(clock: nat, random: (nat, nat) -> string, now: string)
      requires Valid()
      modifies this`currentWeek, this`lists, this`emptyState, this`counts, this`summary
      ensures Valid() && currentWeek == clock && Loaded(clock, clock, random, now)
    {
      currentWeek := clock;
      LoadForWeek(clock, random, now);
    }

    /** `saveUserConfig`: the configuration is written under its key. */
    method SaveUserConfig()
      modifies this`prefs
      ensures prefs == WithUserConfig(old(prefs), userConfig)
    {
      prefs := WithUserConfig(prefs, userConfig);
    }

    /** `toggleTheme`: the theme becomes dark or light, and the configuration is saved. */
    method ToggleTheme(isDark: bool)
      modifies this`userConfig, this`prefs
      ensures userConfig == old(userConfig).(theme := if isDark then Dark else Light)
      ensures prefs == WithUserConfig(old(prefs), userConfig)
    {
      userConfig := userConfig.(theme := if isDark then Dark else Light);
      SaveUserConfig();
    }

    /** `toggleStats`: the statistics panel flips between shown and hidden, so two
        toggles restore it. */
    method ToggleStats()
      modifies this`showStats
      ensures showStats == !old(showStats)
    {
      showStats := !showStats;
    }

    /** `onSearch`: the query is stored lowercased and the filter applied. */
    method OnSearch(query: string)
      requires Valid()
      modifies this`searchQuery, this`lists
      ensures Valid() && searchQuery == ToLower(query)
      ensures lists == FilterBoard(old(lists), ToLower(query))
    {
      searchQuery := ToLower(query);
      ApplySearchFilter();
    }

    /** `editUserId` with the prompt's answer: a cancelled or blank answer changes
        nothing; otherwise the trimmed answer becomes the user id and is saved. */
    method EditUserId(answer: Option<string>)
      modifies this`userConfig, this`prefs
      ensures userConfig == old(userConfig).(userId := Edited(old(userConfig).userId, answer))
      ensures answer.None? || IsBlank(answer.value) ==> prefs == old(prefs)
      ensures answer.Some? && !IsBlank(answer.value) ==> prefs == WithUserConfig(old(prefs), userConfig)
    {
      if answer.Some? && !IsBlank(answer.value) {
        userConfig := userConfig.(userId := Trim(answer.value));
        SaveUserConfig();
      }
    }

    /** `editMotto` with the prompt's answer: a cancelled or blank answer changes
        nothing; otherwise the trimmed answer becomes the motto and is saved. */
    method EditMotto(answer: Option<string>)
      modifies this`userConfig, this`prefs
      ensures userConfig == old(userConfig).(userMotto := Edited(old(userConfig).userMotto, answer))
      ensures answer.None? || IsBlank(answer.value) ==> prefs == old(prefs)
      ensures answer.Some? && !IsBlank(answer.value) ==> prefs == WithUserConfig(old(prefs), userConfig)
    {
      if answer.Some? && !IsBlank(answer.value) {
        userConfig := userConfig.(userMotto := Trim(answer.value));
        SaveUserConfig();
      }
    }
  }
}

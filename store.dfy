/** The preference store the plan is kept in, at the level of parsed JSON values:
    one entry per week key holding the board's columns, and one entry holding the
    user configuration. */
module Store {
  import opened Wrappers
  import opened Tasks
  import opened Board
  import opened Search
  import opened Settings
  import opened Calendar

  const ConfigKey: string := "extensions.zotero.zoteroplan.userConfig"

  /** What `JSON.parse` makes of a stored string: nothing usable (the value is
      empty, or not JSON), a board object with its column arrays (a column field
      holding a falsy value is left out of `columns`), a configuration object with
      its fields, or some other value that is not `null` (an array, a number, a
      string or a boolean), which has none of the column fields. */
  datatype Pref = Unparsable | WeekJson(columns: map<string, seq<Entry>>) | ConfigJson(patch: ConfigPatch) | OtherJson

  type Prefs = map<string, Pref>

  /** `{ planning: [], todo: [], doing: [], done: [] }`. */
  const EmptyData: map<string, seq<Entry>> := map["planning" := [], "todo" := [], "doing" := [], "done" := []]

  /** The `data` that `loadForWeek` renders for `key`: the stored object, or the
      empty board when the key is missing or its value unusable. A configuration
      object or any other parsed value has none of the column fields. */
  function StoredWeek(prefs: Prefs, key: string): (r: map<string, seq<Entry>>)
    ensures forall name ::
      ColumnEntries(r, name) == if key in prefs && prefs[key].WeekJson? then ColumnEntries(prefs[key].columns, name) else []
  {
    if key !in prefs then EmptyData
    else
      match prefs[key]
      case Unparsable => EmptyData
      case WeekJson(columns) => columns
      case ConfigJson(_) => map[]
      case OtherJson => map[]
  }

  /** `data[col] || []`. */
  function ColumnEntries(data: map<string, seq<Entry>>, name: string): seq<Entry> {
    if name in data then data[name] else []
  }

  /** The generated ids of column `c`, by entry index. */
  function ColumnIds(freshId: (nat, nat) -> string, c: nat): nat -> string {
    (k: nat) => freshId(c, k)
  }

  /** The cards `loadForWeek` puts in the four lists for `data`; `freshId(c, k)`
      is the id generated for entry `k` of column `c` when it has none. */
  function LoadBoard(data: map<string, seq<Entry>>, freshId: (nat, nat) -> string, now: string): (r: Lists)
    ensures |r| == |ColumnNames|
    ensures forall c :: 0 <= c < |ColumnNames| ==> r[c] == LoadColumn(ColumnEntries(data, ColumnNames[c]), ColumnIds(freshId, c), now)
  {
    seq(|ColumnNames|, c requires 0 <= c < |ColumnNames| => LoadColumn(ColumnEntries(data, ColumnNames[c]), ColumnIds(freshId, c), now))
  }

  /** No entry survives `filter(Boolean)`: the list shows the empty-state element. */
  predicate AllFalsy(entries: seq<Entry>) {
    forall i :: 0 <= i < |entries| ==> entries[i].Falsy?
  }

  /** For each column, whether `loadForWeek` shows the empty-state element. */
  function EmptyShown(data: map<string, seq<Entry>>): (r: seq<bool>)
    ensures |r| == |ColumnNames|
    ensures forall c :: 0 <= c < |ColumnNames| ==> r[c] == AllFalsy(ColumnEntries(data, ColumnNames[c]))
  {
    seq(|ColumnNames|, c requires 0 <= c < |ColumnNames| => AllFalsy(ColumnEntries(data, ColumnNames[c])))
  }

  /** A missing key, an unusable value or a non-board object loads as four empty
      columns, each showing the empty state. */
  lemma LoadMissingWeek(prefs: Prefs, key: string, freshId: (nat, nat) -> string, now: string)
    requires key !in prefs || !prefs[key].WeekJson?
    ensures LoadBoard(StoredWeek(prefs, key), freshId, now) == [[], [], [], []]
    ensures EmptyShown(StoredWeek(prefs, key)) == [true, true, true, true]
  {
    var data := StoredWeek(prefs, key);
    forall c | 0 <= c < |ColumnNames|
      ensures ColumnEntries(data, ColumnNames[c]) == []
    {
    }
  }

  /** `base` with `keys[k]` set to `vals[k]` for each `k < n`, in order. */
  function Fill<V>(base: map<string, V>, keys: seq<string>, vals: seq<V>, n: nat): map<string, V>
    requires n <= |keys| && n <= |vals|
  {
    if n == 0 then base else Fill(base, keys, vals, n - 1)[keys[n - 1] := vals[n - 1]]
  }

  /** Filling the fields `base` already has adds none. */
  lemma {:induction false} FillKeys<V>(base: map<string, V>, keys: seq<string>, vals: seq<V>, n: nat)
    requires n <= |keys| && n <= |vals|
    requires forall k :: 0 <= k < |keys| ==> keys[k] in base
    ensures Fill(base, keys, vals, n).Keys == base.Keys
  {
    if n > 0 {
      FillKeys(base, keys, vals, n - 1);
    }
  }

  /** With distinct keys, field `keys[c]` holds `vals[c]` once filled and its base
      value before. */
  lemma {:induction false} FillAt<V>(base: map<string, V>, keys: seq<string>, vals: seq<V>, n: nat, c: nat)
    requires n <= |keys| && n <= |vals| && c < |keys|
    requires forall k :: 0 <= k < |keys| ==> keys[k] in base
    requires forall i, j :: 0 <= i < j < |keys| ==> keys[i] != keys[j]
    ensures keys[c] in Fill(base, keys, vals, n)
    ensures Fill(base, keys, vals, n)[keys[c]] == if c < n then vals[c] else base[keys[c]]
  {
    if n > 0 {
      FillAt(base, keys, vals, n - 1, c);
      if c != n - 1 {
        assert keys[c] != keys[n - 1];
      }
    }
  }

  /** The saved form of each column of `b`. */
  function SavedColumns(b: Lists, now: string): (r: seq<seq<Entry>>)
    ensures |r| == |b|
    ensures forall c :: 0 <= c < |b| ==> r[c] == SaveColumn(b[c], now)
  {
    seq(|b|, c requires 0 <= c < |b| => SaveColumn(b[c], now))
  }

  /** The board `saveForWeek` builds after its first `n` columns. */
  function SaveBoardUpTo(b: Lists, n: nat, now: string): map<string, seq<Entry>>
    requires n <= |b| && n <= |ColumnNames|
  {
    Fill(EmptyData, ColumnNames, SavedColumns(b, now), n)
  }

  /** The object `saveForWeek` stores for board `b`. */
  function SaveBoard(b: Lists, now: string): (r: map<string, seq<Entry>>)
    requires |b| == |ColumnNames|
    ensures r.Keys == {"planning", "todo", "doing", "done"}
  {
    ColumnNamesAreKeys();
    FillKeys(EmptyData, ColumnNames, SavedColumns(b, now), |ColumnNames|);
    SaveBoardUpTo(b, |b|, now)
  }

  /** The column names are the fields of the empty board. */
  lemma ColumnNamesAreKeys()
    ensures forall c :: 0 <= c < |ColumnNames| ==> ColumnNames[c] in EmptyData
  {
  }

  /** The stored object has exactly the four column fields, each the saved column. */
  lemma SaveBoardColumns(b: Lists, now: string)
    requires |b| == |ColumnNames|
    ensures SaveBoard(b, now).Keys == {"planning", "todo", "doing", "done"}
    ensures forall c :: 0 <= c < |ColumnNames| ==> ColumnEntries(SaveBoard(b, now), ColumnNames[c]) == SaveColumn(b[c], now)
  {
    ColumnNamesAreKeys();
    ColumnNamesDistinct();
    var vals := SavedColumns(b, now);
    FillKeys(EmptyData, ColumnNames, vals, |ColumnNames|);
    forall c | 0 <= c < |ColumnNames|
      ensures ColumnEntries(SaveBoard(b, now), ColumnNames[c]) == SaveColumn(b[c], now)
    {
      FillAt(EmptyData, ColumnNames, vals, |ColumnNames|, c);
    }
  }

  /** A board of stable cards, saved and loaded again, is the same board. */
  lemma LoadOfSavedBoard(b: Lists, now: string, freshId: (nat, nat) -> string, later: string)
    requires |b| == |ColumnNames|
    requires forall c, i :: 0 <= c < |b| && 0 <= i < |b[c]| ==> StableCard(b[c][i])
    ensures LoadBoard(SaveBoard(b, now), freshId, later) == b
  {
    SaveBoardColumns(b, now);
    forall c | 0 <= c < |ColumnNames|
      ensures LoadBoard(SaveBoard(b, now), freshId, later)[c] == b[c]
    {
      LoadOfSavedColumn(b[c], now, ColumnIds(freshId, c), later);
    }
  }

  /** Saving does not read the search filter's `display`. */
  lemma {:induction false} SaveColumnIgnoresHidden(a: seq<Card>, b: seq<Card>, now: string)
    requires |a| == |b|
    requires forall i :: 0 <= i < |a| ==> a[i] == b[i].(hidden := a[i].hidden)
    ensures SaveColumn(a, now) == SaveColumn(b, now)
  {
    if |a| > 0 {
      var n := |a| - 1;
      SaveColumnIgnoresHidden(a[..n], b[..n], now);
      assert CardTask(a[n], now) == CardTask(b[n], now);
    }
  }

  /** Saving a filtered column saves the column as it was. */
  lemma SaveColumnIgnoresFilter(col: seq<Card>, query: string, now: string)
    ensures SaveColumn(FilterColumn(col, query), now) == SaveColumn(col, now)
  {
    SaveColumnIgnoresHidden(FilterColumn(col, query), col, now);
  }

  /** Searching never changes what is stored for the week. */
  lemma SaveIgnoresFilter(b: Lists, query: string, now: string)
    requires |b| == |ColumnNames|
    ensures SaveBoard(FilterBoard(b, query), now) == SaveBoard(b, now)
  {
    var f := FilterBoard(b, query);
    SaveBoardColumns(b, now);
    SaveBoardColumns(f, now);
    forall c | 0 <= c < |ColumnNames|
      ensures SaveColumn(f[c], now) == SaveColumn(b[c], now)
    {
      SaveColumnIgnoresFilter(b[c], query, now);
    }
    forall k | k in SaveBoard(b, now)
      ensures SaveBoard(f, now)[k] == SaveBoard(b, now)[k]
    {
      assert k == ColumnNames[0] || k == ColumnNames[1] || k == ColumnNames[2] || k == ColumnNames[3];
    }
  }

  /** `loadUserConfig`: the stored configuration object merged over `config`;
      `config` itself when nothing usable is stored. */
  function LoadUserConfig(config: UserConfig, prefs: Prefs): (r: UserConfig)
    ensures ConfigKey !in prefs || !prefs[ConfigKey].ConfigJson? ==> r == config
  {
    if ConfigKey in prefs && prefs[ConfigKey].ConfigJson? then Merge(config, prefs[ConfigKey].patch) else config
  }

  /** `saveUserConfig`: the store with the configuration object written. */
  function WithUserConfig(prefs: Prefs, config: UserConfig): (r: Prefs)
    ensures r.Keys == prefs.Keys + {ConfigKey}
    ensures forall k :: k in prefs && k != ConfigKey ==> r[k] == prefs[k]
    ensures r[ConfigKey].ConfigJson? && Merge(config, r[ConfigKey].patch) == config
  {
    prefs[ConfigKey := ConfigJson(ToPatch(config))]
  }

  /** A saved configuration is loaded back unchanged by a new manager, which merges
      it over the defaults. */
  lemma ConfigRoundTrip(prefs: Prefs, config: UserConfig)
    ensures LoadUserConfig(Defaults, WithUserConfig(prefs, config)) == config
  {
    MergeSaved(Defaults, config);
  }

  /** The configuration key is no week's key. */
  lemma ConfigKeyIsNoWeekKey(t: int)
    ensures ConfigKey != WeekKey(t)
  {
    var date := IsoString(StartOfWeek(t))[..10];
    assert WeekKey(t) == WeekKeyPrefix + date;
    NotUnderWeekPrefix(date);
  }

  lemma NotUnderWeekPrefix(date: string)
    ensures ConfigKey != WeekKeyPrefix + date
  {
    assert (WeekKeyPrefix + date)[29] == 'w' && ConfigKey[29] == 'u';
  }

  /** Saving a week never touches the stored configuration, and saving the
      configuration never touches a week (every week key differs from the
      configuration key, by ConfigKeyIsNoWeekKey). */
  lemma KeysApart(prefs: Prefs, key: string, week: map<string, seq<Entry>>, config: UserConfig, base: UserConfig)
    requires key != ConfigKey
    ensures LoadUserConfig(base, prefs[key := WeekJson(week)]) == LoadUserConfig(base, prefs)
    ensures StoredWeek(WithUserConfig(prefs, config), key) == StoredWeek(prefs, key)
  {
  }
}

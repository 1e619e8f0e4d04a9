/** Tasks as stored, task cards as rendered, and the conversions between them:
    `renderTask` fills in defaults and writes a task's fields into a card's data
    attributes; saving reads a card's attributes back into a task. */
module Tasks {
  import opened Wrappers
  import opened Strings

  /** The four fixed columns, in board order. */
  const ColumnNames: seq<string> := ["planning", "todo", "doing", "done"]
  /** The four column names differ from each other. */
  lemma ColumnNamesDistinct()
    ensures forall i, j :: 0 <= i < j < |ColumnNames| ==> ColumnNames[i] != ColumnNames[j]
  {
    assert ColumnNames[0][0] == 'p' && ColumnNames[1][0] == 't' && ColumnNames[2][0] == 'd' && ColumnNames[3][0] == 'd';
    assert ColumnNames[2][1] == 'o' && ColumnNames[3][1] == 'o' && ColumnNames[2][2] == 'i' && ColumnNames[3][2] == 'n';
  }

  const NoPriority: string := "none"

  /** A task record as it appears in stored week data. A missing `id`, `text` or
      `created` reads as "" (JavaScript treats both as falsy); `priority`, `tags`
      and `note` may be absent. */
  datatype Task = Task(id: string, text: string, created: string,
                       priority: Option<string>, tags: Option<seq<string>>, note: Option<string>)

  /** A task card in a column list: its `data-id`, `data-created`, `data-priority`,
      `data-tags` and `data-note` attributes ("" when the attribute is absent; every
      reader tests it for truthiness), the text of its content element, whether it
      carries the `zoteroplan-task-dragging` class, and whether the search filter has
      set its `style.display` to `none`. */
  datatype Card = Card(id: string, created: string, priority: string, tags: string, note: string,
                       text: string, dragging: bool, hidden: bool)

  /** An entry of a stored column array: a falsy value (`null`, `false`, `0`, `""`),
      some other non-object value, or a task record. */
  datatype Entry = Falsy | Scalar | Record(task: Task)

  /** The id `task_${Date.now()}_${random}` given to a new task, from the clock
      reading and the random suffix. */
  function TaskId(clock: nat, random: string): (id: string)
    ensures |id| > 5 && id[..5] == "task_"
  {
    "task_" + NatToString(clock) + "_" + random
  }

  /** JavaScript `s || fallback` on strings. */
  function OrElse(s: string, fallback: string): (r: string)
    ensures r == s || r == fallback
    ensures r != "" <== (s != "" || fallback != "")
  {
    if s != "" then s else fallback
  }

  /** `renderTask`: the card for a task. A missing id becomes `freshId`, a missing
      creation time `now`, a missing priority `"none"`; tags are joined with `,`
      when there are any, and the note is kept when it is not empty. */
  function RenderTask(t: Task, freshId: string, now: string): (c: Card)
    ensures c.priority != "" && !c.dragging && !c.hidden && c.text == t.text
    ensures t.id != "" ==> c.id == t.id
    ensures t.id == "" ==> c.id == freshId
    ensures t.created != "" ==> c.created == t.created
    ensures t.created == "" ==> c.created == now
    ensures t.priority.Some? && t.priority.value != "" ==> c.priority == t.priority.value
    ensures t.priority.None? || t.priority == Some("") ==> c.priority == NoPriority
    ensures t.tags.Some? && |t.tags.value| > 0 ==> c.tags == Join(t.tags.value, ',')
    ensures t.tags.None? || t.tags == Some([]) ==> c.tags == ""
    ensures t.note.Some? ==> c.note == t.note.value
    ensures t.note.None? ==> c.note == ""
  {
    Card(OrElse(t.id, freshId),
         OrElse(t.created, now),
         OrElse(t.priority.GetOr(""), NoPriority),
         if t.tags.Some? && |t.tags.value| > 0 then Join(t.tags.value, ',') else "",
         if t.note.Some? then t.note.value else "",
         t.text,
         false,
         false)
  }

  /** The task `saveForWeek` builds from a card: the creation time falls back to
      `now`, the priority to `"none"`, tags are split on `,` with blank pieces
      dropped, and an empty note is left out. */
  function CardTask(c: Card, now: string): (t: Task)
    ensures t.id == c.id && t.text == c.text
    ensures c.created != "" ==> t.created == c.created
    ensures c.created == "" ==> t.created == now
    ensures c.priority != "" ==> t.priority == Some(c.priority)
    ensures c.priority == "" ==> t.priority == Some(NoPriority)
    ensures c.tags == "" <==> t.tags.None?
    ensures c.tags != "" ==> t.tags == Some(NonBlank(Split(c.tags, ',')))
    ensures t.tags.Some? ==> forall i :: 0 <= i < |t.tags.value| ==> !IsBlank(t.tags.value[i]) && ',' !in t.tags.value[i]
    ensures c.note != "" ==> t.note == Some(c.note)
    ensures c.note == "" ==> t.note.None?
  {
    Task(c.id, c.text, OrElse(c.created, now), Some(OrElse(c.priority, NoPriority)),
         if c.tags != "" then Some(NonBlank(Split(c.tags, ','))) else None,
         if c.note != "" then Some(c.note) else None)
  }

  /** A task that survives rendering and saving unchanged: it has an id, a creation
      time and a priority, its tags (if any) are non-blank and comma-free, and its
      note (if any) is not empty. */
  predicate StableTask(t: Task) {
    && t.id != "" && t.created != ""
    && t.priority.Some? && t.priority.value != ""
    && (t.tags.Some? ==> |t.tags.value| > 0 && forall i :: 0 <= i < |t.tags.value| ==> !IsBlank(t.tags.value[i]) && ',' !in t.tags.value[i])
    && (t.note.Some? ==> t.note.value != "")
  }

  /** Render, then save: a stable task comes back unchanged. */
  lemma SaveOfRenderedTask(t: Task, freshId: string, now: string, later: string)
    requires StableTask(t)
    ensures CardTask(RenderTask(t, freshId, now), later) == t
  {
    if t.tags.Some? {
      var ts := t.tags.value;
      SplitJoin(ts, ',');
      NonBlankKeepsAll(ts);
      assert !IsBlank(ts[0]) && IsBlank("");
      assert Split("", ',') == [""];
    }
  }

  /** A card that survives saving and rendering unchanged: it has an id, a creation
      time and a priority, no blank piece in its tags, and it is neither being dragged
      nor hidden by the search filter. */
  predicate StableCard(c: Card) {
    && c.id != "" && c.created != "" && c.priority != "" && !c.dragging && !c.hidden
    && (c.tags != "" ==> NoBlankPiece(Split(c.tags, ',')))
  }

  predicate NoBlankPiece(pieces: seq<string>) {
    forall i :: 0 <= i < |pieces| ==> !IsBlank(pieces[i])
  }

  /** Save, then render: a stable card comes back unchanged. */
  lemma RenderOfSavedCard(c: Card, now: string, freshId: string, later: string)
    requires StableCard(c)
    ensures RenderTask(CardTask(c, now), freshId, later) == c
  {
    if c.tags != "" {
      NonBlankKeepsAll(Split(c.tags, ','));
      JoinSplit(c.tags, ',');
    }
  }

  // ----- columns

  /** The task array `saveForWeek` builds for one column: a task per card that has
      an id, in order. */
  function SaveColumn(cards: seq<Card>, now: string): (r: seq<Entry>)
    ensures |r| <= |cards|
    ensures forall i :: 0 <= i < |r| ==> r[i].Record?
  {
    if |cards| == 0 then []
    else
      var c := cards[|cards| - 1];
      SaveColumn(cards[..|cards| - 1], now) + (if c.id != "" then [Record(CardTask(c, now))] else [])
  }

  /** The cards `loadForWeek` renders for one stored column: falsy entries are
      filtered out, non-objects render to nothing, records are rendered in order.
      `freshId(k)` is the id generated for the entry at index `k`. */
  function LoadColumn(entries: seq<Entry>, freshId: nat -> string, now: string): (r: seq<Card>)
    ensures |r| <= |entries|
    ensures forall i :: 0 <= i < |r| ==> !r[i].dragging && !r[i].hidden && r[i].priority != ""
  {
    if |entries| == 0 then []
    else
      var k := |entries| - 1;
      LoadColumn(entries[..k], freshId, now)
      + (match entries[k]
         case Record(t) => [RenderTask(t, freshId(k), now)]
         case _ => [])
  }

  /** Every card that has an id is saved; all of them when all have one. */
  lemma {:induction false} SaveColumnKeepsAll(cards: seq<Card>, now: string)
    requires forall i :: 0 <= i < |cards| ==> cards[i].id != ""
    ensures |SaveColumn(cards, now)| == |cards|
  {
    if |cards| > 0 {
      SaveColumnKeepsAll(cards[..|cards| - 1], now);
    }
  }

  /** Reference: the cards of `cards` that have an id, in order. */
  function CardsWithId(cards: seq<Card>): seq<Card> {
    if |cards| == 0 then []
    else
      var c := cards[|cards| - 1];
      CardsWithId(cards[..|cards| - 1]) + (if c.id != "" then [c] else [])
  }

  /** A saved column holds, for each card that has an id and in their order, the
      task saved from that card; the cards without an id are skipped. */
  lemma {:induction false} SaveColumnSavesCards(cards: seq<Card>, now: string, j: nat)
    requires j < |SaveColumn(cards, now)|
    ensures |SaveColumn(cards, now)| == |CardsWithId(cards)|
    ensures SaveColumn(cards, now)[j] == Record(CardTask(CardsWithId(cards)[j], now))
  {
    SaveColumnCount(cards, now);
    var k := |cards| - 1;
    SaveColumnCount(cards[..k], now);
    if j < |SaveColumn(cards[..k], now)| {
      SaveColumnSavesCards(cards[..k], now, j);
    }
  }

  lemma {:induction false} SaveColumnCount(cards: seq<Card>, now: string)
    ensures |SaveColumn(cards, now)| == |CardsWithId(cards)|
  {
    if |cards| > 0 {
      SaveColumnCount(cards[..|cards| - 1], now);
    }
  }

  /** Saving a column with one more card that has an id appends that card's task. */
  lemma SaveColumnSnoc(init: seq<Card>, last: Card, now: string)
    requires last.id != ""
    ensures SaveColumn(init + [last], now) == SaveColumn(init, now) + [Record(CardTask(last, now))]
  {
    assert (init + [last])[..|init|] == init;
  }

  /** Loading a column with one more record appends that record's card, rendered
      with the id generated for its index. */
  lemma LoadColumnSnoc(front: seq<Entry>, t: Task, freshId: nat -> string, now: string)
    ensures LoadColumn(front + [Record(t)], freshId, now) == LoadColumn(front, freshId, now) + [RenderTask(t, freshId(|front|), now)]
  {
    assert (front + [Record(t)])[..|front|] == front;
  }

  /** A column of stable cards, saved and loaded again, is the same column. */
  lemma {:induction false} LoadOfSavedColumn(cards: seq<Card>, now: string, freshId: nat -> string, later: string)
    requires forall i :: 0 <= i < |cards| ==> StableCard(cards[i])
    ensures LoadColumn(SaveColumn(cards, now), freshId, later) == cards
  {
    if |cards| > 0 {
      var k := |cards| - 1;
      var init, last := cards[..k], cards[k];
      assert cards == init + [last];
      SaveColumnSnoc(init, last, now);
      SaveColumnKeepsAll(init, now);
      LoadOfSavedColumn(init, now, freshId, later);
      LoadColumnSnoc(SaveColumn(init, now), CardTask(last, now), freshId, later);
      RenderOfSavedCard(last, now, freshId(k), later);
    }
  }

  /** Loading drops exactly the entries that are not records. */
  lemma {:induction false} LoadColumnCount(entries: seq<Entry>, freshId: nat -> string, now: string)
    ensures |LoadColumn(entries, freshId, now)| == |RecordsOf(entries)|
  {
    if |entries| > 0 {
      var k := |entries| - 1;
      LoadColumnCount(entries[..k], freshId, now);
    }
  }

  /** Reference: the records among `entries`, in order. */
  function RecordsOf(entries: seq<Entry>): seq<Task> {
    if |entries| == 0 then []
    else
      var e := entries[|entries| - 1];
      RecordsOf(entries[..|entries| - 1]) + (if e.Record? then [e.task] else [])
  }

  /** A loaded column holds the rendering of each record, in order; a record without
      a priority comes out with priority `"none"`. */
  lemma {:induction false} LoadColumnRendersRecords(entries: seq<Entry>, freshId: nat -> string, now: string, i: nat)
    requires i < |LoadColumn(entries, freshId, now)|
    ensures |RecordsOf(entries)| == |LoadColumn(entries, freshId, now)|
    ensures var t := RecordsOf(entries)[i]; var c := LoadColumn(entries, freshId, now)[i];
      c.text == t.text && (t.id != "" ==> c.id == t.id) && (t.priority.None? ==> c.priority == NoPriority)
  {
    LoadColumnCount(entries, freshId, now);
    var k := |entries| - 1;
    LoadColumnCount(entries[..k], freshId, now);
    if i < |LoadColumn(entries[..k], freshId, now)| {
      LoadColumnRendersRecords(entries[..k], freshId, now, i);
    }
  }
}

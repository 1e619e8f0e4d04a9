/** The search box: `onSearch` lowercases the query and `applySearchFilter` hides
    the cards whose lowercased text does not contain it. */
module Search {
  import opened Strings
  import opened Tasks
  import opened Board
  import opened Stats

  /** A card with content `text` stays shown under the (already lowercased) query:
      the query is empty or `text.toLowerCase().indexOf(query) >= 0`. */
  predicate Visible(text: string, query: string)
    ensures query == [] ==> Visible(text, query)
    ensures Visible(text, query) ==> |query| <= |text|
  {
    query == [] || IndexOf(ToLower(text), query) >= 0
  }

  /** Shown exactly when the query is empty or occurs in the lowercased text. */
  lemma VisibleIffSubstring(text: string, query: string)
    ensures Visible(text, query) <==> query == [] || exists k :: OccursAt(ToLower(text), query, k)
  {
    IndexOfIsSubstring(ToLower(text), query);
  }

  /** The query `onSearch` stores, tested against a text that differs only in the
      case of its letters, gives the same answer. */
  lemma VisibleIgnoresCase(text: string, other: string, query: string)
    requires ToLower(text) == ToLower(other)
    ensures Visible(text, ToLower(query)) == Visible(other, ToLower(query))
  {
  }

  /** One column after the filter: every card keeps its place and its content, and
      is hidden exactly when it does not match. */
  function FilterColumn(col: seq<Card>, query: string): (r: seq<Card>)
    ensures |r| == |col|
    ensures forall i :: 0 <= i < |col| ==> r[i].hidden == !Visible(col[i].text, query)
    ensures forall i :: 0 <= i < |col| ==> r[i].(hidden := col[i].hidden) == col[i]
  {
    seq(|col|, i requires 0 <= i < |col| => col[i].(hidden := !Visible(col[i].text, query)))
  }

  /** The board after `applySearchFilter`. */
  function FilterBoard(b: Lists, query: string): (r: Lists)
    ensures |r| == |b|
    ensures forall c :: 0 <= c < |b| ==> r[c] == FilterColumn(b[c], query)
  {
    seq(|b|, c requires 0 <= c < |b| => FilterColumn(b[c], query))
  }

  /** Filtering twice with the same query is filtering once. */
  lemma FilterIdempotent(b: Lists, query: string)
    ensures FilterBoard(FilterBoard(b, query), query) == FilterBoard(b, query)
  {
    var once := FilterBoard(b, query);
    forall c | 0 <= c < |b|
      ensures FilterColumn(once[c], query) == once[c]
    {
      assert forall i :: 0 <= i < |b[c]| ==> once[c][i].text == b[c][i].text;
    }
  }

  /** The filter neither adds, removes nor moves cards, so every count stays. */
  lemma {:induction false} FilterKeepsTotal(b: Lists, query: string)
    ensures TotalCount(FilterBoard(b, query)) == TotalCount(b)
    ensures ColumnCounts(FilterBoard(b, query)) == ColumnCounts(b)
  {
    if |b| > 0 {
      var n := |b| - 1;
      assert FilterBoard(b, query)[..n] == FilterBoard(b[..n], query);
      FilterKeepsTotal(b[..n], query);
    }
  }

  /** The counters and the statistics of a filtered board are those of the board. */
  lemma FilterKeepsCounts(b: Lists, query: string)
    requires |b| == |ColumnNames|
    ensures CountsOf(FilterBoard(b, query)) == CountsOf(b)
    ensures SummaryOf(FilterBoard(b, query)) == SummaryOf(b)
  {
    FilterKeepsTotal(b, query);
  }
}

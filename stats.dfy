/** The numbers the board shows: the card count in each column header and on the
    user card (`updateTaskCounts`), and the statistics panel with its progress
    percentage (`updateStats`). */
module Stats {
  import opened Wrappers
  import opened Tasks
  import opened Board

  /** The index of the `done` column in `ColumnNames`. */
  const Done: nat := 3

  /** What `updateTaskCounts` writes: a count per column header, the week's total
      and the number of done tasks on the user card. */
  datatype Counts = Counts(columns: seq<nat>, total: nat, done: nat)

  /** What `updateStats` writes: the total, a count per column and the progress
      percentage. */
  datatype Summary = Summary(total: nat, columns: seq<nat>, progress: nat)

  function Sum(xs: seq<nat>): nat {
    if |xs| == 0 then 0 else Sum(xs[..|xs| - 1]) + xs[|xs| - 1]
  }

  /** The number of `.zoteroplan-task` elements in each column list. */
  function ColumnCounts(b: Lists): (r: seq<nat>)
    ensures |r| == |b|
    ensures forall c :: 0 <= c < |b| ==> r[c] == |b[c]|
  {
    seq(|b|, c requires 0 <= c < |b| => |b[c]|)
  }

  /** The column counts add up to the board's total. */
  lemma {:induction false} SumOfColumnCounts(b: Lists)
    ensures Sum(ColumnCounts(b)) == TotalCount(b)
  {
    if |b| > 0 {
      var n := |b| - 1;
      assert ColumnCounts(b)[..n] == ColumnCounts(b[..n]);
      SumOfColumnCounts(b[..n]);
    }
  }

  /** No column holds more cards than the whole board. */
  lemma {:induction false} ColumnAtMostTotal(b: Lists, c: nat)
    requires c < |b|
    ensures |b[c]| <= TotalCount(b)
  {
    var n := |b| - 1;
    if c < n {
      assert b[..n][c] == b[c];
      ColumnAtMostTotal(b[..n], c);
    }
  }

  /** `Math.round(done / total * 100)` in exact arithmetic, 0 for an empty board:
      the integer nearest to `100 * done / total`, halves rounded up (by
      RoundPercentNearest). */
  function RoundPercent(done: nat, total: nat): (r: nat)
    ensures total == 0 ==> r == 0
    ensures done <= total ==> r <= 100
  {
    if total == 0 then 0
    else
      var q := (200 * done + total) / (2 * total);
      RoundingBounds(done, total, q);
      q
  }

  /** The quotient is within half a step of `100 * done / total`, and at most 100
      when some of the cards are done. */
  lemma RoundingBounds(done: nat, total: nat, q: int)
    requires total > 0 && q == (200 * done + total) / (2 * total)
    ensures -(total as int) <= 2 * (100 * done - q * total) < total
    ensures done <= total ==> 0 <= q <= 100
  {
    var m := 2 * total;
    var x := 200 * done + total;
    assert q * m <= x < q * m + m;
    assert q * m == 2 * (q * total);
    if done <= total {
      assert q * m < 101 * m;
      ProductBelow(q, 101, m);
    }
  }

  /** The progress is the percentage of done cards rounded to the nearest integer:
      it differs from `100 * done / total` by at most one half. */
  lemma RoundPercentNearest(done: nat, total: nat)
    requires total > 0
    ensures -(total as int) <= 2 * (100 * done - RoundPercent(done, total) * total) < total
  {
    RoundingBounds(done, total, RoundPercent(done, total));
  }

  /** A positive factor cancels from a strict inequality. */
  lemma ProductBelow(q: int, c: int, m: int)
    requires m > 0 && q * m < c * m
    ensures q < c
  {
  }

  /** What the counters should show for board `b`. */
  function CountsOf(b: Lists): Counts
    requires |b| == |ColumnNames|
  {
    Counts(ColumnCounts(b), TotalCount(b), |b[Done]|)
  }

  /** What the statistics panel should show for board `b`. */
  function SummaryOf(b: Lists): Summary
    requires |b| == |ColumnNames|
  {
    Summary(TotalCount(b), ColumnCounts(b), RoundPercent(|b[Done]|, TotalCount(b)))
  }

  /** The counters agree with each other: one count per column, a total that is
      their sum and a done count that is the done column's. */
  predicate CountsAgree(k: Counts) {
    |k.columns| == |ColumnNames| && k.total == Sum(k.columns) && k.done == k.columns[Done]
  }

  /** The statistics agree with each other, and the progress lies in 0..100. */
  predicate SummaryAgrees(s: Summary) {
    && |s.columns| == |ColumnNames| && s.total == Sum(s.columns)
    && s.progress == RoundPercent(s.columns[Done], s.total) && s.progress <= 100
  }

  /** The numbers computed from any board agree with each other: the total is the sum
      of the four column counts, the done count is the length of the done column,
      and the progress is the rounded percentage of done cards, within 0..100. */
  lemma CountsOfAgree(b: Lists)
    requires |b| == |ColumnNames|
    ensures CountsAgree(CountsOf(b)) && SummaryAgrees(SummaryOf(b))
    ensures CountsOf(b).done <= CountsOf(b).total
  {
    SumOfColumnCounts(b);
    ColumnAtMostTotal(b, Done);
  }

  /** The numbers a new panel shows before anything is loaded agree with each other. */
  lemma NothingCounted()
    ensures CountsAgree(Counts([0, 0, 0, 0], 0, 0)) && SummaryAgrees(Summary(0, [0, 0, 0, 0], 0))
  {
    assert [0, 0, 0, 0][..3] == [0, 0, 0] && [0, 0, 0][..2] == [0, 0] && [0, 0][..1] == [0] && [0][..0] == [];
  }

  /** After `clearCurrentWeek` empties the board, the counters and the statistics
      show zero everywhere, with 0 % progress. */
  lemma ClearedNumbers()
    ensures CountsOf([[], [], [], []]) == Counts([0, 0, 0, 0], 0, 0)
    ensures SummaryOf([[], [], [], []]) == Summary(0, [0, 0, 0, 0], 0)
  {
    var e: Lists := [[], [], [], []];
    assert e[..3] == [[], [], []] && e[..3][..2] == [[], []] && e[..3][..2][..1] == [[]];
    assert e[..3][..2][..1][..0] == [];
    assert TotalCount(e[..3][..2][..1]) == 0;
    assert TotalCount(e[..3][..2]) == 0;
    assert TotalCount(e[..3]) == 0;
    assert ColumnCounts(e) == [0, 0, 0, 0];
  }

  /** The dragover move changes no number: the counts of the columns may shift, the
      total does not. */
  lemma MoveKeepsTotal(b: Lists, c: nat, i: nat, t: nat, after: Option<nat>)
    requires |b| == |ColumnNames| && c < |b| && i < |b[c]| && t < |b|
    requires after.Some? ==> after.value < |b[t]| && (c == t ==> after.value != i)
    ensures CountsOf(MoveCard(b, c, i, t, after)).total == CountsOf(b).total
    ensures SummaryOf(MoveCard(b, c, i, t, after)).total == SummaryOf(b).total
  {
    MoveKeepsCards(b, c, i, t, after);
  }
}

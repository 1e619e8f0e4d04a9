/** Choosing where a dragged card goes: the `getDragAfterElement` fold over the
    cards of the list under the pointer, and the `querySelector` that finds the card
    being dragged. Coordinates are integer pixels. */
module Drag {
  import opened Wrappers
  import opened Tasks

  /** The part of `getBoundingClientRect()` the fold reads. */
  datatype Box = Box(top: int, height: int)

  /** Twice the offset `y - box.top - box.height / 2` of the pointer from the
      middle of a card. Doubling keeps the sign and the order of offsets and
      avoids the division. */
  function Offset2(y: int, box: Box): int {
    2 * y - 2 * box.top - box.height
  }

  /** Card `j` is one of the elements `.zoteroplan-task:not(.zoteroplan-task-dragging)`
      and the pointer is above its middle. */
  predicate Candidate(cards: seq<Card>, boxes: seq<Box>, y: int, j: int) {
    0 <= j < |cards| && j < |boxes| && !cards[j].dragging && Offset2(y, boxes[j]) < 0
  }

  /** The `reduce` over the first `n` cards: the index of the candidate with the
      largest negative offset, the earliest one on a tie (the fold replaces its
      choice only on a strictly larger offset), or None when there is none. */
  function AfterElementUpTo(cards: seq<Card>, boxes: seq<Box>, y: int, n: nat): (r: Option<nat>)
    requires |boxes| == |cards| && n <= |cards|
    ensures r.Some? ==> r.value < n && Candidate(cards, boxes, y, r.value)
    ensures r.None? <==> forall j :: 0 <= j < n ==> !Candidate(cards, boxes, y, j)
    ensures r.Some? ==> forall j :: 0 <= j < n && Candidate(cards, boxes, y, j) ==> Offset2(y, boxes[j]) <= Offset2(y, boxes[r.value])
    ensures r.Some? ==> forall j :: 0 <= j < r.value && Candidate(cards, boxes, y, j) ==> Offset2(y, boxes[j]) < Offset2(y, boxes[r.value])
  {
    if n == 0 then None
    else
      var closest := AfterElementUpTo(cards, boxes, y, n - 1);
      var j := n - 1;
      if Candidate(cards, boxes, y, j) && (closest.None? || Offset2(y, boxes[j]) > Offset2(y, boxes[closest.value])) then Some(j)
      else closest
  }

  /** `getDragAfterElement`: the card before which the dragged card is inserted,
      or None (the dragged card goes to the end of the list). */
  function AfterElement(cards: seq<Card>, boxes: seq<Box>, y: int): (r: Option<nat>)
    requires |boxes| == |cards|
    ensures r.Some? ==> r.value < |cards| && !cards[r.value].dragging && Offset2(y, boxes[r.value]) < 0
    ensures r.None? <==> forall j :: 0 <= j < |cards| ==> !Candidate(cards, boxes, y, j)
    ensures r.Some? ==> forall j :: 0 <= j < |cards| && Candidate(cards, boxes, y, j) ==> Offset2(y, boxes[j]) <= Offset2(y, boxes[r.value])
    ensures r.Some? ==> forall j :: 0 <= j < r.value && Candidate(cards, boxes, y, j) ==> Offset2(y, boxes[j]) < Offset2(y, boxes[r.value])
  {
    AfterElementUpTo(cards, boxes, y, |cards|)
  }

  /** The first card in column `col` from index `from` on that is being dragged. */
  function FirstDragging(col: seq<Card>, from: nat): (r: Option<nat>)
    ensures r.Some? ==> from <= r.value < |col| && col[r.value].dragging
    ensures r.Some? ==> forall i :: from <= i < r.value ==> !col[i].dragging
    ensures r.None? <==> forall i :: from <= i < |col| ==> !col[i].dragging
    decreases |col| - from
  {
    if from >= |col| then None
    else if col[from].dragging then Some(from)
    else FirstDragging(col, from + 1)
  }

  /** `querySelector(".zoteroplan-task-dragging")` from column `c` on: the first
      dragged card in document order, as a column and an index. */
  function FindDraggingFrom(b: seq<seq<Card>>, c: nat): (r: Option<(nat, nat)>)
    ensures r.Some? ==> c <= r.value.0 < |b| && r.value.1 < |b[r.value.0]| && b[r.value.0][r.value.1].dragging
    ensures r.Some? ==> forall k, i :: c <= k < r.value.0 && 0 <= i < |b[k]| ==> !b[k][i].dragging
    ensures r.Some? ==> forall i :: 0 <= i < r.value.1 ==> !b[r.value.0][i].dragging
    ensures r.None? <==> forall k, i :: c <= k < |b| && 0 <= i < |b[k]| ==> !b[k][i].dragging
    decreases |b| - c
  {
    if c >= |b| then None
    else
      match FirstDragging(b[c], 0)
      case Some(i) => Some((c, i))
      case None => FindDraggingFrom(b, c + 1)
  }

  /** The card the dragover handler moves, searching the whole board. */
  function FindDragging(b: seq<seq<Card>>): (r: Option<(nat, nat)>)
    ensures r.Some? ==> r.value.0 < |b| && r.value.1 < |b[r.value.0]| && b[r.value.0][r.value.1].dragging
    ensures r.Some? ==> forall k, i :: 0 <= k < |b| && 0 <= i < |b[k]| && (k < r.value.0 || (k == r.value.0 && i < r.value.1)) ==> !b[k][i].dragging
    ensures r.None? <==> forall k, i :: 0 <= k < |b| && 0 <= i < |b[k]| ==> !b[k][i].dragging
  {
    FindDraggingFrom(b, 0)
  }
}

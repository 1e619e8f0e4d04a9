/** The board as a value: one sequence of cards per column, in `ColumnNames` order,
    and the edits the board's handlers make to it (`insertBefore`/`appendChild` of a
    dragged card, `remove()` of a deleted one). */
module Board {
  import opened Wrappers
  import opened Tasks

  /** The cards of every column list, in board order. */
  type Lists = seq<seq<Card>>

  /** Every card in document order: column by column, top to bottom. */
  function Flatten(b: Lists): seq<Card> {
    if |b| == 0 then [] else Flatten(b[..|b| - 1]) + b[|b| - 1]
  }

  /** The number of cards on the board, summed column by column. */
  function TotalCount(b: Lists): nat {
    if |b| == 0 then 0 else TotalCount(b[..|b| - 1]) + |b[|b| - 1]|
  }

  /** The card total is the length of the document-order sequence. */
  lemma {:induction false} FlattenLength(b: Lists)
    ensures |Flatten(b)| == TotalCount(b)
  {
    if |b| > 0 {
      FlattenLength(b[..|b| - 1]);
    }
  }

  /** `s` without its element at index `i` (`element.remove()`). */
  function RemoveAt(s: seq<Card>, i: nat): (r: seq<Card>)
    requires i < |s|
    ensures |r| == |s| - 1
    ensures forall j :: 0 <= j < i ==> r[j] == s[j]
    ensures forall j :: i <= j < |r| ==> r[j] == s[j + 1]
    ensures multiset(r) + multiset{s[i]} == multiset(s)
  {
    assert s == s[..i] + [s[i]] + s[i + 1..];
    s[..i] + s[i + 1..]
  }

  /** `s` with `x` placed at index `p` (`insertBefore` the element at `p`, or
      `appendChild` when `p == |s|`). */
  function InsertAt(s: seq<Card>, p: nat, x: Card): (r: seq<Card>)
    requires p <= |s|
    ensures |r| == |s| + 1 && r[p] == x
    ensures forall j :: 0 <= j < p ==> r[j] == s[j]
    ensures forall j :: p < j < |r| ==> r[j] == s[j - 1]
    ensures multiset(r) == multiset(s) + multiset{x}
  {
    assert s == s[..p] + s[p..];
    s[..p] + [x] + s[p..]
  }

  /** Taking out what was just put in gives back the sequence. */
  lemma RemoveInsert(s: seq<Card>, p: nat, x: Card)
    requires p <= |s|
    ensures RemoveAt(InsertAt(s, p, x), p) == s
  {
    var r := InsertAt(s, p, x);
    assert r[..p] == s[..p] && r[p + 1..] == s[p..];
    assert s == s[..p] + s[p..];
  }

  /** Replacing column `k` by `col` changes the cards of the board by exactly the
      cards of the old and the new column. */
  lemma FlattenUpdate(b: Lists, k: nat, col: seq<Card>)
    requires k < |b|
    ensures multiset(Flatten(b[k := col])) + multiset(b[k]) == multiset(Flatten(b)) + multiset(col)
    ensures TotalCount(b[k := col]) + |b[k]| == TotalCount(b) + |col|
  {
    CardsUpdate(b, k, col);
    TotalUpdate(b, k, col);
  }

  lemma {:induction false} CardsUpdate(b: Lists, k: nat, col: seq<Card>)
    requires k < |b|
    ensures multiset(Flatten(b[k := col])) + multiset(b[k]) == multiset(Flatten(b)) + multiset(col)
  {
    var n := |b| - 1;
    var u := b[k := col];
    assert multiset(Flatten(u)) == multiset(Flatten(u[..n])) + multiset(u[n]);
    assert multiset(Flatten(b)) == multiset(Flatten(b[..n])) + multiset(b[n]);
    if k < n {
      assert u[..n] == b[..n][k := col] && u[n] == b[n] && b[..n][k] == b[k];
      CardsUpdate(b[..n], k, col);
      Rearrange(multiset(Flatten(u[..n])), multiset(b[k]), multiset(Flatten(b[..n])), multiset(col), multiset(b[n]));
    } else {
      assert u[..n] == b[..n] && u[n] == col;
    }
  }

  lemma {:induction false} TotalUpdate(b: Lists, k: nat, col: seq<Card>)
    requires k < |b|
    ensures TotalCount(b[k := col]) + |b[k]| == TotalCount(b) + |col|
  {
    var n := |b| - 1;
    var u := b[k := col];
    if k < n {
      assert u[..n] == b[..n][k := col] && u[n] == b[n] && b[..n][k] == b[k];
      TotalUpdate(b[..n], k, col);
    } else {
      assert u[..n] == b[..n] && u[n] == col;
    }
  }

  /** Multiset bookkeeping: adding the same bag to both sides keeps them equal. */
  lemma Rearrange<T>(a: multiset<T>, x: multiset<T>, b: multiset<T>, y: multiset<T>, z: multiset<T>)
    requires a + x == b + y
    ensures a + z + x == b + z + y
  {
    calc {
      a + z + x;
      (a + x) + z;
      (b + y) + z;
      b + z + y;
    }
  }

  /** The delete button's handler: card `i` of column `c` is removed. */
  function DeleteCard(b: Lists, c: nat, i: nat): (r: Lists)
    requires c < |b| && i < |b[c]|
    ensures |r| == |b| && r[c] == RemoveAt(b[c], i)
    ensures forall k :: 0 <= k < |b| && k != c ==> r[k] == b[k]
  {
    b[c := RemoveAt(b[c], i)]
  }

  /** Deleting removes exactly the one card: the board loses that card and nothing
      else, and the total drops by one. */
  lemma DeleteRemovesOne(b: Lists, c: nat, i: nat)
    requires c < |b| && i < |b[c]|
    ensures multiset(Flatten(DeleteCard(b, c, i))) + multiset{b[c][i]} == multiset(Flatten(b))
    ensures TotalCount(DeleteCard(b, c, i)) == TotalCount(b) - 1
  {
    var r := RemoveAt(b[c], i);
    FlattenUpdate(b, c, r);
    Exchange(multiset(Flatten(DeleteCard(b, c, i))), multiset(b[c]), multiset(Flatten(b)), multiset(r), multiset{b[c][i]});
  }

  /** Multiset bookkeeping: when `a + x == b + r` and `r + g == x`, then `a + g == b`. */
  lemma Exchange<T>(a: multiset<T>, x: multiset<T>, b: multiset<T>, r: multiset<T>, g: multiset<T>)
    requires a + x == b + r && r + g == x
    ensures a + g == b
  {
    calc {
      a + g + x;
      (a + x) + g;
      b + (r + g);
      b + x;
    }
    forall o
      ensures (a + g)[o] == b[o]
    {
      assert (a + g + x)[o] == (b + x)[o];
    }
  }

  /** Where the dragged card `b[c][i]` lands in column `t` once it has left its own
      column: just before the card that was at index `after`, or at the end. A card
      taken from above `after` in the same column shifts it up by one. */
  function Landing(b: Lists, c: nat, i: nat, t: nat, after: Option<nat>): (r: nat)
    requires c < |b| && i < |b[c]| && t < |b|
    ensures after.None? ==> r == |b[t]| - (if c == t then 1 else 0)
    ensures after.Some? && after.value < |b[t]| && (c != t || after.value != i) ==>
      var rest := if c == t then RemoveAt(b[t], i) else b[t];
      r < |rest| && rest[r] == b[t][after.value]
  {
    match after
    case None => if c == t then |b[t]| - 1 else |b[t]|
    case Some(k) => if c == t && i < k then k - 1 else k
  }

  /** The dragover move: the dragged card `b[c][i]` is taken out of its column and
      inserted before card `after` of column `t`, or appended to column `t`. */
  function MoveCard(b: Lists, c: nat, i: nat, t: nat, after: Option<nat>): (r: Lists)
    requires c < |b| && i < |b[c]| && t < |b|
    requires after.Some? ==> after.value < |b[t]| && (c == t ==> after.value != i)
    ensures |r| == |b|
    ensures forall k :: 0 <= k < |b| && k != c && k != t ==> r[k] == b[k]
  {
    var left := DeleteCard(b, c, i);
    left[t := InsertAt(left[t], Landing(b, c, i, t, after), b[c][i])]
  }

  /** The move keeps every card on the board, so the total is unchanged. */
  lemma MoveKeepsCards(b: Lists, c: nat, i: nat, t: nat, after: Option<nat>)
    requires c < |b| && i < |b[c]| && t < |b|
    requires after.Some? ==> after.value < |b[t]| && (c == t ==> after.value != i)
    ensures multiset(Flatten(MoveCard(b, c, i, t, after))) == multiset(Flatten(b))
    ensures TotalCount(MoveCard(b, c, i, t, after)) == TotalCount(b)
  {
    var card := b[c][i];
    var left := DeleteCard(b, c, i);
    var landed := InsertAt(left[t], Landing(b, c, i, t, after), card);
    DeleteRemovesOne(b, c, i);
    FlattenUpdate(left, t, landed);
    Absorb(multiset(Flatten(MoveCard(b, c, i, t, after))), multiset(left[t]), multiset(Flatten(left)),
           multiset(landed), multiset{card}, multiset(Flatten(b)));
  }

  /** Multiset bookkeeping: when `a + x == f + l`, `l == x + g` and `f + g == z`, then `a == z`. */
  lemma Absorb<T>(a: multiset<T>, x: multiset<T>, f: multiset<T>, l: multiset<T>, g: multiset<T>, z: multiset<T>)
    requires a + x == f + l && l == x + g && f + g == z
    ensures a == z
  {
    forall o
      ensures a[o] == z[o]
    {
      assert (a + x)[o] == (f + l)[o];
    }
  }

  /** The dragged card ends up in column `t` immediately before the card that was
      `after`, or last in column `t` when there is no such card. */
  lemma MovePlacesCard(b: Lists, c: nat, i: nat, t: nat, after: Option<nat>)
    requires c < |b| && i < |b[c]| && t < |b|
    requires after.Some? ==> after.value < |b[t]| && (c == t ==> after.value != i)
    ensures var r, p := MoveCard(b, c, i, t, after), Landing(b, c, i, t, after);
      p < |r[t]| && r[t][p] == b[c][i]
      && (after.None? ==> p == |r[t]| - 1)
      && (after.Some? ==> p + 1 < |r[t]| && r[t][p + 1] == b[t][after.value])
  {
  }

  /** Every other card keeps its column and its order: taking the moved card out
      again leaves the board with just the dragged card removed. */
  lemma MoveKeepsOthersInOrder(b: Lists, c: nat, i: nat, t: nat, after: Option<nat>)
    requires c < |b| && i < |b[c]| && t < |b|
    requires after.Some? ==> after.value < |b[t]| && (c == t ==> after.value != i)
    ensures var r := MoveCard(b, c, i, t, after); var p := Landing(b, c, i, t, after);
      p < |r[t]| && DeleteCard(r, t, p) == DeleteCard(b, c, i)
  {
    var left := DeleteCard(b, c, i);
    var p := Landing(b, c, i, t, after);
    RemoveInsert(left[t], p, b[c][i]);
  }

}

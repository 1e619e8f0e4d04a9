/** The JavaScript string operations the week plan relies on: `trim`, `toLowerCase`,
    `indexOf`, `split(",")`, `join(",")` and decimal rendering of numbers. */
module Strings {

  /** The characters `String.prototype.trim` removes: ECMAScript white space
      (tab, vertical tab, form feed, space, no-break space, byte order mark and the
      Zs space separators) and the four line terminators. */
  predicate IsWhite(c: char) {
    c == '\t' || c == '\n' || c == '\U{B}' || c == '\U{C}' || c == '\r' || c == ' '
    || c == '\U{A0}' || c == '\U{1680}' || ('\U{2000}' <= c <= '\U{200A}')
    || c == '\U{2028}' || c == '\U{2029}' || c == '\U{202F}' || c == '\U{205F}'
    || c == '\U{3000}' || c == '\U{FEFF}'
  }

  predicate AllWhite(s: string) {
    forall i :: 0 <= i < |s| ==> IsWhite(s[i])
  }

  /** The index of the first character of `s` at or after `from` that is not
      white space, or `|s|` when there is none. */
  function FirstNonWhite(s: string, from: nat): (i: nat)
    requires from <= |s|
    ensures from <= i <= |s| && (i == |s| || !IsWhite(s[i]))
    ensures forall k :: from <= k < i ==> IsWhite(s[k])
    decreases |s| - from
  {
    if from == |s| || !IsWhite(s[from]) then from else FirstNonWhite(s, from + 1)
  }

  /** The index just past the last character of `s[from..end]` that is not white
      space, or `from` when there is none. */
  function EndNonWhite(s: string, from: nat, end: nat): (j: nat)
    requires from <= end <= |s|
    ensures from <= j <= end && (j == from || !IsWhite(s[j - 1]))
    ensures forall k :: j <= k < end ==> IsWhite(s[k])
    decreases end
  {
    if end == from || !IsWhite(s[end - 1]) then end else EndNonWhite(s, from, end - 1)
  }

  /** `r` is the piece of `s` at index `i`, and everything around it is white space. */
  predicate PieceAt(s: string, r: string, i: int) {
    0 <= i <= |s| - |r| && r == s[i..i + |r|] && AllWhite(s[..i]) && AllWhite(s[i + |r|..])
  }

  /** `trim`: `s` without its leading and trailing white space. The result is a
      contiguous piece of `s`, everything cut off is white space, and the result
      neither starts nor ends with white space. */
  function Trim(s: string): (r: string)
    ensures exists i :: PieceAt(s, r, i)
    ensures r == [] || (!IsWhite(r[0]) && !IsWhite(r[|r| - 1]))
    ensures r == [] <==> AllWhite(s)
  {
    var i := FirstNonWhite(s, 0);
    var j := EndNonWhite(s, i, |s|);
    TrimSlice(s, i, j);
    s[i..j]
  }

  /** The piece between the leading and the trailing white space has the shape
      `Trim` promises. */
  lemma TrimSlice(s: string, i: nat, j: nat)
    requires i <= j <= |s|
    requires (i == |s| || !IsWhite(s[i])) && forall k :: 0 <= k < i ==> IsWhite(s[k])
    requires (j == i || !IsWhite(s[j - 1])) && forall k :: j <= k < |s| ==> IsWhite(s[k])
    ensures exists i' :: PieceAt(s, s[i..j], i')
    ensures var r := s[i..j]; r == [] || (!IsWhite(r[0]) && !IsWhite(r[|r| - 1]))
    ensures var r := s[i..j]; r == [] <==> AllWhite(s)
  {
    var r := s[i..j];
    assert forall k :: 0 <= k < i ==> s[..i][k] == s[k];
    assert forall k :: 0 <= k < |s| - j ==> s[j..][k] == s[j + k];
    assert PieceAt(s, r, i);
  }

  /** Trimming a trimmed string changes nothing. */
  lemma TrimIdempotent(s: string)
    ensures Trim(Trim(s)) == Trim(s)
  {
    var r := Trim(s);
    if r != [] {
      assert FirstNonWhite(r, 0) == 0;
      assert EndNonWhite(r, 0, |r|) == |r|;
      assert r[0..|r|] == r;
    }
  }

  /** JavaScript falsiness of `s.trim()`: `s` is empty or white space only, which is
      exactly when `Trim(s)` is empty (the last clause of Trim's contract). */
  predicate IsBlank(s: string) {
    AllWhite(s)
  }

  /** `toLowerCase` on the ASCII letters. */
  function LowerChar(c: char): char {
    if 'A' <= c <= 'Z' then (c as int + 32) as char else c
  }

  function ToLower(s: string): (r: string)
    ensures |r| == |s|
    ensures forall i :: 0 <= i < |s| ==> r[i] == LowerChar(s[i])
  {
    seq(|s|, i requires 0 <= i < |s| => LowerChar(s[i]))
  }

  /** Lowering a lowered string changes nothing. */
  lemma ToLowerIdempotent(s: string)
    ensures ToLower(ToLower(s)) == ToLower(s)
  {
  }

  /** `q` occurs in `s` starting at index `i`. */
  predicate OccursAt(s: string, q: string, i: int) {
    0 <= i && i + |q| <= |s| && s[i..i + |q|] == q
  }

  /** `s.indexOf(q, from)`: the first index at or after `from` where `q` occurs, or -1. */
  function IndexFrom(s: string, q: string, from: nat): (r: int)
    ensures r == -1 || (from <= r && OccursAt(s, q, r))
    ensures r == -1 ==> forall k :: from <= k ==> !OccursAt(s, q, k)
    ensures r != -1 ==> forall k :: from <= k < r ==> !OccursAt(s, q, k)
    decreases |s| - from
  {
    if from + |q| > |s| then -1
    else if s[from..from + |q|] == q then from
    else IndexFrom(s, q, from + 1)
  }

  /** `s.indexOf(q)`. */
  function IndexOf(s: string, q: string): int {
    IndexFrom(s, q, 0)
  }

  /** `indexOf` finds something exactly when `q` is a substring of `s`. */
  lemma IndexOfIsSubstring(s: string, q: string)
    ensures IndexOf(s, q) >= 0 <==> exists i :: OccursAt(s, q, i)
    ensures IndexOf(s, q) < 0 ==> IndexOf(s, q) == -1
  {
    if IndexOf(s, q) >= 0 {
      assert OccursAt(s, q, IndexOf(s, q));
    }
  }

  // ----- split(",") and join(",")

  /** `s.split(sep)` for a one-character separator: the pieces between separators,
      always at least one (`"".split(",")` is `[""]`). */
  function Split(s: string, sep: char): (r: seq<string>)
    ensures |r| >= 1
    ensures forall i :: 0 <= i < |r| ==> sep !in r[i]
  {
    if |s| == 0 then [""]
    else
      var rest := Split(s[1..], sep);
      if s[0] == sep then [""] + rest
      else [[s[0]] + rest[0]] + rest[1..]
  }

  /** `parts.join(sep)`. */
  function Join(parts: seq<string>, sep: char): string {
    if |parts| == 0 then ""
    else if |parts| == 1 then parts[0]
    else parts[0] + [sep] + Join(parts[1..], sep)
  }

  /** Joining the pieces of a split gives back the string. */
  lemma {:induction false} JoinSplit(s: string, sep: char)
    ensures Join(Split(s, sep), sep) == s
  {
    if |s| > 0 {
      var rest := Split(s[1..], sep);
      JoinSplit(s[1..], sep);
      if s[0] == sep {
        assert Split(s, sep) == [""] + rest;
        assert ([""] + rest)[1..] == rest;
      } else {
        var r := Split(s, sep);
        assert r == [[s[0]] + rest[0]] + rest[1..];
        if |rest| == 1 {
          assert Join(r, sep) == [s[0]] + rest[0];
        } else {
          assert r[1..] == rest[1..];
          assert Join(rest, sep) == rest[0] + [sep] + Join(rest[1..], sep);
          assert Join(r, sep) == [s[0]] + rest[0] + [sep] + Join(rest[1..], sep);
        }
        assert [s[0]] + s[1..] == s;
      }
    }
  }

  /** Splitting `a + rest`, where `a` holds no separator, glues `a` to the first piece of `rest`. */
  lemma {:induction false} SplitPrefix(a: string, rest: string, sep: char)
    requires sep !in a
    ensures Split(a + rest, sep) == [a + Split(rest, sep)[0]] + Split(rest, sep)[1..]
    decreases |a|
  {
    if |a| > 0 {
      var s := a + rest;
      assert s[1..] == a[1..] + rest;
      SplitPrefix(a[1..], rest, sep);
      assert [a[0]] + (a[1..] + Split(rest, sep)[0]) == a + Split(rest, sep)[0];
    } else {
      var r := Split(rest, sep);
      assert a == [];
      assert a + rest == rest;
      assert a + r[0] == r[0];
      assert [r[0]] + r[1..] == r;
    }
  }

  /** Splitting a join of separator-free pieces gives back the pieces. */
  lemma {:induction false} SplitJoin(parts: seq<string>, sep: char)
    requires |parts| >= 1
    requires forall i :: 0 <= i < |parts| ==> sep !in parts[i]
    ensures Split(Join(parts, sep), sep) == parts
  {
    if |parts| == 1 {
      SplitPrefix(parts[0], "", sep);
      assert parts[0] + "" == parts[0];
    } else {
      var tail := Join(parts[1..], sep);
      SplitJoin(parts[1..], sep);
      SplitPrefix(parts[0], [sep] + tail, sep);
      assert parts[0] + [sep] + tail == parts[0] + ([sep] + tail);
      assert ([sep] + tail)[1..] == tail;
      assert Split([sep] + tail, sep) == [""] + parts[1..];
      assert parts[0] + "" == parts[0];
      assert parts == [parts[0]] + parts[1..];
    }
  }

  /** `pieces.filter(t => t.trim())`: the pieces that are not blank, in order. */
  function NonBlank(pieces: seq<string>): (r: seq<string>)
    ensures |r| <= |pieces|
    ensures forall i :: 0 <= i < |r| ==> !IsBlank(r[i]) && r[i] in pieces
  {
    if |pieces| == 0 then []
    else if IsBlank(pieces[0]) then NonBlank(pieces[1..])
    else [pieces[0]] + NonBlank(pieces[1..])
  }

  /** The filter works piece by piece: a blank piece is dropped, any other kept, and
      the pieces of a concatenation are filtered in order. */
  lemma {:induction false} NonBlankAppend(a: seq<string>, b: seq<string>)
    ensures NonBlank(a + b) == NonBlank(a) + NonBlank(b)
    ensures |a| == 1 ==> NonBlank(a) == if IsBlank(a[0]) then [] else a
  {
    if |a| > 0 {
      assert (a + b)[0] == a[0] && (a + b)[1..] == a[1..] + b;
      NonBlankAppend(a[1..], b);
    } else {
      assert a + b == b;
    }
  }

  /** Every non-blank piece is kept, and no other. */
  lemma {:induction false} NonBlankMembers(pieces: seq<string>, p: string)
    ensures p in NonBlank(pieces) <==> p in pieces && !IsBlank(p)
  {
    if |pieces| > 0 {
      NonBlankMembers(pieces[1..], p);
      assert pieces == [pieces[0]] + pieces[1..];
    }
  }

  /** Filtering keeps everything when no piece is blank. */
  lemma {:induction false} NonBlankKeepsAll(pieces: seq<string>)
    requires forall i :: 0 <= i < |pieces| ==> !IsBlank(pieces[i])
    ensures NonBlank(pieces) == pieces
  {
    if |pieces| > 0 {
      NonBlankKeepsAll(pieces[1..]);
    }
  }

  // ----- decimal numbers

  function DigitChar(d: nat): (c: char)
    requires d < 10
    ensures '0' <= c <= '9' && c as int - '0' as int == d
  {
    ('0' as int + d) as char
  }

  function Pow10(w: nat): (r: nat)
    ensures r >= 1
  {
    if w == 0 then 1 else 10 * Pow10(w - 1)
  }

  /** The decimal digits of `n`, padded with leading zeros to at least `width`
      digits (`String(n).padStart(width, "0")`). */
  function Decimal(n: nat, width: nat): (r: string)
    ensures |r| >= 1 && |r| >= width
    ensures n < Pow10(width) && width >= 1 ==> |r| == width
    ensures n >= 10 ==> |r| >= 2
    decreases n + width
  {
    if n < 10 && width <= 1 then [DigitChar(n)]
    else Decimal(n / 10, if width == 0 then 0 else width - 1) + [DigitChar(n % 10)]
  }

  /** The rendering has only decimal digits. */
  lemma {:induction false} DecimalDigits(n: nat, width: nat)
    ensures forall i :: 0 <= i < |Decimal(n, width)| ==> '0' <= Decimal(n, width)[i] <= '9'
    decreases n + width
  {
    if !(n < 10 && width <= 1) {
      DecimalDigits(n / 10, if width == 0 then 0 else width - 1);
    }
  }

  /** The number a string of decimal digits denotes, most significant digit first. */
  function DigitsValue(s: string): int {
    if |s| == 0 then 0 else 10 * DigitsValue(s[..|s| - 1]) + (s[|s| - 1] as int - '0' as int)
  }

  /** The rendering denotes the number rendered. */
  lemma {:induction false} DecimalValue(n: nat, width: nat)
    ensures DigitsValue(Decimal(n, width)) == n
    decreases n + width
  {
    if n < 10 && width <= 1 {
      assert [DigitChar(n)][..0] == [];
    } else {
      var w' := if width == 0 then 0 else width - 1;
      var p := Decimal(n / 10, w');
      assert (p + [DigitChar(n % 10)])[..|p|] == p;
      DecimalValue(n / 10, w');
    }
  }

  /** `String(n)` for a natural number. */
  function NatToString(n: nat): string {
    Decimal(n, 1)
  }

  /** Different numbers have different padded renderings. */
  lemma DecimalInjective(a: nat, b: nat, width: nat)
    requires Decimal(a, width) == Decimal(b, width)
    ensures a == b
  {
    DecimalValue(a, width);
    DecimalValue(b, width);
  }
}

/**
 * Responsive column hiding shared by both tables. A width measurement is turned
 * into a count of columns that fit, and column `i` is hidden exactly when
 * `i >= count`: hiding goes by position in the column list, last columns first.
 * Hidden columns are not dropped; they move into the per-row detail panel.
 */
module Visibility {
  import Arith

  /** `Math.min(Math.max(1, Math.floor(width / minColWidth)), columns)`. */
  function VisibleCount(width: nat, minColWidth: nat, columns: nat): (r: nat)
    requires minColWidth > 0
    ensures r <= columns && r <= (if width / minColWidth < 1 then 1 else width / minColWidth)
    ensures r == columns || r == if width / minColWidth < 1 then 1 else width / minColWidth
    ensures columns >= 1 ==> r >= 1
  {
    var fit := if width / minColWidth < 1 then 1 else width / minColWidth;
    if fit < columns then fit else columns
  }

  /** A wider table never shows fewer columns. */
  lemma VisibleCountMonotone(w1: nat, w2: nat, minColWidth: nat, columns: nat)
    requires minColWidth > 0 && w1 <= w2
    ensures VisibleCount(w1, minColWidth, columns) <= VisibleCount(w2, minColWidth, columns)
  {
    Arith.DivMonotone(w1, w2, minColWidth);
  }

  /** `isColumnHidden(index)`. */
  predicate IsHidden(index: int, count: nat) {
    index >= count
  }

  /** `columns.some((_, i) => isColumnHidden(i))`. */
  predicate HasHidden(columns: nat, count: nat) {
    exists i :: 0 <= i < columns && IsHidden(i, count)
  }

  /** Some column is hidden exactly when fewer columns fit than there are. */
  lemma HasHiddenIff(columns: nat, count: nat)
    ensures HasHidden(columns, count) <==> count < columns
  {
    if count < columns {
      assert IsHidden(count, count);
    }
  }

  /** The columns rendered in the row, in declaration order: those not hidden. */
  function Shown<T>(cols: seq<T>, count: nat, from: nat): seq<T>
    requires from <= |cols|
    decreases |cols| - from
  {
    if from == |cols| then []
    else (if IsHidden(from, count) then [] else [cols[from]]) + Shown(cols, count, from + 1)
  }

  /** The columns listed in the detail panel, in declaration order: those hidden. */
  function Demoted<T>(cols: seq<T>, count: nat, from: nat): seq<T>
    requires from <= |cols|
    decreases |cols| - from
  {
    if from == |cols| then []
    else (if IsHidden(from, count) then [cols[from]] else []) + Demoted(cols, count, from + 1)
  }

  function Min(a: nat, b: nat): nat {
    if a < b then a else b
  }

  /** The shown columns are exactly a prefix of the column list. */
  lemma {:induction false} ShownIsPrefix<T>(cols: seq<T>, count: nat, from: nat)
    requires from <= |cols|
    ensures Shown(cols, count, from) == cols[Min(from, Min(count, |cols|))..Min(count, |cols|)]
    decreases |cols| - from
  {
    if from < |cols| {
      ShownIsPrefix(cols, count, from + 1);
      if from < count {
        assert cols[from..Min(count, |cols|)] == [cols[from]] + cols[from + 1..Min(count, |cols|)];
      }
    }
  }

  /** The demoted columns are exactly the rest of the list after the prefix. */
  lemma {:induction false} DemotedIsSuffix<T>(cols: seq<T>, count: nat, from: nat)
    requires from <= |cols|
    ensures Demoted(cols, count, from) == cols[if from < count then Min(count, |cols|) else from..]
    decreases |cols| - from
  {
    if from < |cols| {
      DemotedIsSuffix(cols, count, from + 1);
      if from >= count {
        assert cols[from..] == [cols[from]] + cols[from + 1..];
      }
    }
  }

  /** Hiding never loses a column: the shown prefix and the demoted rest make up the list. */
  lemma ShownAndDemoted<T>(cols: seq<T>, count: nat)
    ensures Shown(cols, count, 0) == cols[..Min(count, |cols|)]
    ensures Demoted(cols, count, 0) == cols[Min(count, |cols|)..]
    ensures Shown(cols, count, 0) + Demoted(cols, count, 0) == cols
  {
    ShownIsPrefix(cols, count, 0);
    DemotedIsSuffix(cols, count, 0);
    if count == 0 {
      assert Demoted(cols, count, 0) == cols;
    }
  }

  /** Narrowing the table only demotes more columns: the demoted list at the
      wider width is a suffix of the demoted list at the narrower one. */
  lemma NarrowerDemotesMore<T>(cols: seq<T>, w1: nat, w2: nat, minColWidth: nat)
    requires minColWidth > 0 && w1 <= w2
    ensures var narrow := Demoted(cols, VisibleCount(w1, minColWidth, |cols|), 0);
            var wide := Demoted(cols, VisibleCount(w2, minColWidth, |cols|), 0);
            |wide| <= |narrow| && wide == narrow[|narrow| - |wide|..]
  {
    VisibleCountMonotone(w1, w2, minColWidth, |cols|);
    ShownAndDemoted(cols, VisibleCount(w1, minColWidth, |cols|));
    ShownAndDemoted(cols, VisibleCount(w2, minColWidth, |cols|));
  }
}

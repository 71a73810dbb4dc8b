/**
 * The sort step of both tables: `[...data].sort(cmp)` with a comparator that
 * orders two rows by one property, ascending or descending.
 *
 * ECMAScript's `Array.prototype.sort` is stable. When the comparator is a
 * consistent order on the values present (here: every key is a number, every
 * key is a string, or every key is a boolean) the result of a stable sort is
 * unique, and `Sort` below, a stable insertion sort, is that result. With an
 * inconsistent comparator (null keys, which compare equal to everything) the
 * standard fixes only that the result is a permutation, and that is all that
 * is claimed for it.
 */
module Sorting {
  import opened Cells
  import Seqs
  import Text

  datatype Direction = Asc | Desc

  /** Lexicographic order on code-unit sequences, a proper prefix first. */
  predicate UnitsLess(a: seq<int>, b: seq<int>)
    decreases |a|
  {
    if a == [] then b != []
    else if b == [] then false
    else if a[0] != b[0] then a[0] < b[0]
    else UnitsLess(a[1..], b[1..])
  }

  /** JavaScript's `a < b` on strings: their UTF-16 code units compared lexicographically. */
  predicate StrLess(a: string, b: string) {
    UnitsLess(Text.Utf16(a), Text.Utf16(b))
  }

  /** JavaScript's `a < b` on two cells of the same primitive kind. Every other pair
      (mixed kinds, null, undefined, objects) is treated as not less. */
  predicate Less(a: Cell, b: Cell) {
    match (a, b)
    case (Num(x), Num(y)) => x < y
    case (Str(x), Str(y)) => StrLess(x, y)
    case (Bool(x), Bool(y)) => !x && y
    case _ => false
  }

  /** The comparator of the typed table: 0 when either side is null or undefined,
      otherwise the sign of the comparison, negated for a descending sort. */
  function Compare(a: Cell, b: Cell, dir: Direction): (r: int)
    ensures IsNullish(a) || IsNullish(b) ==> r == 0
    ensures r < 0 <==> (if dir == Asc then Less(a, b) else Less(b, a))
    ensures r > 0 <==> (if dir == Asc then Less(b, a) else Less(a, b))
    ensures -1 <= r <= 1
  {
    StrLessAsymmetric(a, b);
    if IsNullish(a) || IsNullish(b) then 0
    else if Less(a, b) then (if dir == Asc then -1 else 1)
    else if Less(b, a) then (if dir == Asc then 1 else -1)
    else 0
  }

  /** The kinds of cell that a sort key can consistently hold. */
  datatype Kind = NumKind | StrKind | BoolKind

  predicate OfKind(c: Cell, k: Kind) {
    match k
    case NumKind => c.Num?
    case StrKind => c.Str?
    case BoolKind => c.Bool?
  }

  /** Every row's key value is of kind `k`: the comparator is then a consistent order. */
  predicate KeysOfKind(s: seq<Row>, key: string, k: Kind) {
    forall i :: 0 <= i < |s| ==> OfKind(Lookup(s[i], key), k)
  }

  lemma {:induction false} UnitsLessIrreflexive(a: seq<int>)
    ensures !UnitsLess(a, a)
  {
    if a != [] {
      UnitsLessIrreflexive(a[1..]);
    }
  }

  lemma {:induction false} UnitsLessTransitive(a: seq<int>, b: seq<int>, c: seq<int>)
    requires UnitsLess(a, b) && UnitsLess(b, c)
    ensures UnitsLess(a, c)
    decreases |a|
  {
    if a != [] && b != [] && c != [] && a[0] == b[0] && b[0] == c[0] {
      UnitsLessTransitive(a[1..], b[1..], c[1..]);
    }
  }

  lemma {:induction false} UnitsLessTotal(a: seq<int>, b: seq<int>)
    requires a != b
    ensures UnitsLess(a, b) || UnitsLess(b, a)
    decreases |a|
  {
    if a != [] && b != [] && a[0] == b[0] {
      assert a == [a[0]] + a[1..] && b == [b[0]] + b[1..];
      UnitsLessTotal(a[1..], b[1..]);
    }
  }

  lemma StrLessIrreflexive(a: string)
    ensures !StrLess(a, a)
  {
    UnitsLessIrreflexive(Text.Utf16(a));
  }

  /** JavaScript string `<` is transitive. */
  lemma StrLessTransitive(a: string, b: string, c: string)
    requires StrLess(a, b) && StrLess(b, c)
    ensures StrLess(a, c)
  {
    UnitsLessTransitive(Text.Utf16(a), Text.Utf16(b), Text.Utf16(c));
  }

  /** Of two different strings one is less than the other: the encoding is injective. */
  lemma StrLessTotal(a: string, b: string)
    requires a != b
    ensures StrLess(a, b) || StrLess(b, a)
  {
    if Text.Utf16(a) == Text.Utf16(b) {
      Text.Utf16Injective(a, b);
    }
    UnitsLessTotal(Text.Utf16(a), Text.Utf16(b));
  }

  /** Code-unit order is not code-point order: U+1F600 (high surrogate 0xD83D)
      sorts before U+FF01, although its code point is larger. */
  lemma SurrogatesSortFirst()
    ensures StrLess([0x1F600 as char], [0xFF01 as char])
    ensures !StrLess([0xFF01 as char], [0x1F600 as char])
  {
    assert Text.Utf16([0x1F600 as char]) == [0xD83D, 0xDE00];
    assert Text.Utf16([0xFF01 as char]) == [0xFF01];
  }

  lemma StrLessAsymmetric(a: Cell, b: Cell)
    ensures Less(a, b) ==> !Less(b, a)
  {
    if a.Str? && b.Str? && StrLess(a.s, b.s) && StrLess(b.s, a.s) {
      StrLessTransitive(a.s, b.s, a.s);
      StrLessIrreflexive(a.s);
    }
  }

  /** "`a` sorts strictly before `b`": the comparator is negative on their keys. */
  predicate Precedes(a: Row, b: Row, key: string, dir: Direction) {
    Compare(Lookup(a, key), Lookup(b, key), dir) < 0
  }

  /** On keys of one kind the comparator is a strict total order on key values. */
  lemma PrecedesOrder(a: Row, b: Row, c: Row, key: string, dir: Direction, k: Kind)
    requires OfKind(Lookup(a, key), k) && OfKind(Lookup(b, key), k) && OfKind(Lookup(c, key), k)
    ensures !Precedes(a, a, key, dir)
    ensures Precedes(a, b, key, dir) && Precedes(b, c, key, dir) ==> Precedes(a, c, key, dir)
    ensures Lookup(a, key) != Lookup(b, key) ==> Precedes(a, b, key, dir) || Precedes(b, a, key, dir)
  {
    var x, y, z := Lookup(a, key), Lookup(b, key), Lookup(c, key);
    if k == StrKind {
      StrLessIrreflexive(x.s);
      if StrLess(x.s, y.s) && StrLess(y.s, z.s) { StrLessTransitive(x.s, y.s, z.s); }
      if StrLess(z.s, y.s) && StrLess(y.s, x.s) { StrLessTransitive(z.s, y.s, x.s); }
      if x != y { StrLessTotal(x.s, y.s); }
    }
  }

  /** Insert `x` into a sorted list after every element that does not sort after it. */
  function Insert(x: Row, t: seq<Row>, key: string, dir: Direction): seq<Row>
  {
    if t == [] || Precedes(x, t[0], key, dir) then [x] + t
    else [t[0]] + Insert(x, t[1..], key, dir)
  }

  /** The sorted copy: each row in turn is inserted after the rows already placed
      that are not greater, which keeps rows with equal keys in input order. */
  function Sort(s: seq<Row>, key: string, dir: Direction): seq<Row>
  {
    if s == [] then []
    else Insert(s[|s| - 1], Sort(s[..|s| - 1], key, dir), key, dir)
  }

  lemma {:induction false} InsertPermutation(x: Row, t: seq<Row>, key: string, dir: Direction)
    ensures multiset(Insert(x, t, key, dir)) == multiset(t) + multiset{x}
  {
    if t != [] && !Precedes(x, t[0], key, dir) {
      InsertPermutation(x, t[1..], key, dir);
      assert t == [t[0]] + t[1..];
    }
  }

  /** The sorted copy holds exactly the rows of the input, with their multiplicities. */
  lemma {:induction false} SortPermutation(s: seq<Row>, key: string, dir: Direction)
    ensures multiset(Sort(s, key, dir)) == multiset(s)
  {
    if s != [] {
      SortPermutation(s[..|s| - 1], key, dir);
      InsertPermutation(s[|s| - 1], Sort(s[..|s| - 1], key, dir), key, dir);
      assert s == s[..|s| - 1] + [s[|s| - 1]];
    }
  }

  /** No row sorts strictly before an earlier one. */
  predicate Sorted(s: seq<Row>, key: string, dir: Direction) {
    forall i, j :: 0 <= i < j < |s| ==> !Precedes(s[j], s[i], key, dir)
  }

  /** The rows whose key holds exactly the value `v`. */
  function KeyIs(key: string, v: Cell): Row -> bool {
    r => Lookup(r, key) == v
  }

  lemma AllOfKindMember(s: seq<Row>, key: string, k: Kind, x: Row)
    requires KeysOfKind(s, key, k) && x in s
    ensures OfKind(Lookup(x, key), k)
  {
  }

  /** A sorted list stays sorted behind a head that no element sorts before. */
  lemma SortedCons(h: Row, t: seq<Row>, key: string, dir: Direction)
    requires Sorted(t, key, dir)
    requires forall j :: 0 <= j < |t| ==> !Precedes(t[j], h, key, dir)
    ensures Sorted([h] + t, key, dir)
  {
    var r := [h] + t;
    forall i, j | 0 <= i < j < |r| ensures !Precedes(r[j], r[i], key, dir) {
      assert r[j] == t[j - 1];
      if i > 0 {
        assert r[i] == t[i - 1];
      }
    }
  }

  lemma InsertMembers(x: Row, t: seq<Row>, key: string, dir: Direction, y: Row)
    requires y in Insert(x, t, key, dir)
    ensures y == x || y in t
  {
    InsertPermutation(x, t, key, dir);
    assert y in multiset(Insert(x, t, key, dir));
  }

  lemma {:induction false} InsertSorted(x: Row, t: seq<Row>, key: string, dir: Direction, k: Kind)
    requires Sorted(t, key, dir) && KeysOfKind(t, key, k) && OfKind(Lookup(x, key), k)
    ensures Sorted(Insert(x, t, key, dir), key, dir)
  {
    if t == [] {
    } else if Precedes(x, t[0], key, dir) {
      forall j | 0 <= j < |t| ensures !Precedes(t[j], x, key, dir) {
        PrecedesOrder(t[j], x, t[0], key, dir, k);
        PrecedesOrder(t[0], t[0], t[0], key, dir, k);
      }
      SortedCons(x, t, key, dir);
    } else {
      var rest := Insert(x, t[1..], key, dir);
      InsertSorted(x, t[1..], key, dir, k);
      forall j | 0 <= j < |rest| ensures !Precedes(rest[j], t[0], key, dir) {
        InsertMembers(x, t[1..], key, dir, rest[j]);
        if rest[j] != x {
          var m :| 0 <= m < |t[1..]| && t[1..][m] == rest[j];
          assert t[m + 1] == rest[j];
        }
      }
      SortedCons(t[0], rest, key, dir);
    }
  }

  lemma {:induction false} SortSortedAux(s: seq<Row>, key: string, dir: Direction, k: Kind)
    requires KeysOfKind(s, key, k)
    ensures Sorted(Sort(s, key, dir), key, dir) && KeysOfKind(Sort(s, key, dir), key, k)
  {
    if s != [] {
      var init := s[..|s| - 1];
      SortSortedAux(init, key, dir, k);
      InsertSorted(s[|s| - 1], Sort(init, key, dir), key, dir, k);
      var r := Sort(s, key, dir);
      SortPermutation(s, key, dir);
      forall i | 0 <= i < |r| ensures OfKind(Lookup(r[i], key), k) {
        assert r[i] in multiset(s);
        var m :| 0 <= m < |s| && s[m] == r[i];
      }
    }
  }

  /** Sorting a list whose keys are all of one kind yields a sorted list. */
  lemma SortSorted(s: seq<Row>, key: string, dir: Direction, k: Kind)
    requires KeysOfKind(s, key, k)
    ensures Sorted(Sort(s, key, dir), key, dir)
  {
    SortSortedAux(s, key, dir, k);
  }

  /** Inserting `x` adds it after every row with the same key. */
  lemma {:induction false} InsertStable(x: Row, t: seq<Row>, key: string, dir: Direction, k: Kind, v: Cell)
    requires Sorted(t, key, dir) && KeysOfKind(t, key, k) && OfKind(Lookup(x, key), k)
    ensures Seqs.Filter(Insert(x, t, key, dir), KeyIs(key, v))
         == Seqs.Filter(t, KeyIs(key, v)) + (if Lookup(x, key) == v then [x] else [])
  {
    if t == [] {
      FilterCons(x, [], KeyIs(key, v));
    } else if Precedes(x, t[0], key, dir) {
      InsertFrontStable(x, t, key, dir, k, v);
    } else {
      InsertStable(x, t[1..], key, dir, k, v);
      InsertLaterStable(x, t, key, dir, v);
    }
  }

  /** When `x` goes in front, no row of `t` shares its key. */
  lemma InsertFrontStable(x: Row, t: seq<Row>, key: string, dir: Direction, k: Kind, v: Cell)
    requires Sorted(t, key, dir) && KeysOfKind(t, key, k) && OfKind(Lookup(x, key), k)
    requires t != [] && Precedes(x, t[0], key, dir)
    ensures Seqs.Filter(Insert(x, t, key, dir), KeyIs(key, v))
         == Seqs.Filter(t, KeyIs(key, v)) + (if Lookup(x, key) == v then [x] else [])
  {
    var p := KeyIs(key, v);
    FilterCons(x, t, p);
    if p(x) {
      forall j | 0 <= j < |t| ensures !p(t[j]) {
        PrecedesOrder(t[0], t[0], t[0], key, dir, k);
      }
      NoneKept(t, p);
    }
  }

  /** When `x` goes behind the head, the head's contribution is unchanged. */
  lemma InsertLaterStable(x: Row, t: seq<Row>, key: string, dir: Direction, v: Cell)
    requires t != [] && !Precedes(x, t[0], key, dir)
    requires Seqs.Filter(Insert(x, t[1..], key, dir), KeyIs(key, v))
          == Seqs.Filter(t[1..], KeyIs(key, v)) + (if Lookup(x, key) == v then [x] else [])
    ensures Seqs.Filter(Insert(x, t, key, dir), KeyIs(key, v))
         == Seqs.Filter(t, KeyIs(key, v)) + (if Lookup(x, key) == v then [x] else [])
  {
    var p := KeyIs(key, v);
    var tail: seq<Row> := if Lookup(x, key) == v then [x] else [];
    ConsFilterAssoc(t[0], Insert(x, t[1..], key, dir), t[1..], tail, p);
    assert [t[0]] + t[1..] == t;
  }

  /** Filtering after consing a head commutes with appending a common tail. */
  lemma ConsFilterAssoc<T>(h: T, a: seq<T>, b: seq<T>, tail: seq<T>, p: T -> bool)
    requires Seqs.Filter(a, p) == Seqs.Filter(b, p) + tail
    ensures Seqs.Filter([h] + a, p) == Seqs.Filter([h] + b, p) + tail
  {
    FilterCons(h, a, p);
    FilterCons(h, b, p);
    AppendAssoc(if p(h) then [h] else [], Seqs.Filter(b, p), tail);
  }

  lemma AppendAssoc<T>(x: seq<T>, y: seq<T>, z: seq<T>)
    ensures x + (y + z) == (x + y) + z
  {
  }

  lemma FilterCons<T>(h: T, t: seq<T>, p: T -> bool)
    ensures Seqs.Filter([h] + t, p) == (if p(h) then [h] else []) + Seqs.Filter(t, p)
  {
    assert ([h] + t)[0] == h;
    assert ([h] + t)[1..] == t;
  }

  lemma {:induction false} NoneKept<T>(s: seq<T>, p: T -> bool)
    requires forall j :: 0 <= j < |s| ==> !p(s[j])
    ensures Seqs.Filter(s, p) == []
  {
    if s != [] {
      NoneKept(s[1..], p);
    }
  }

  /** Stability: for every key value, the rows holding it appear in the sorted
      list in the same relative order as in the input. */
  lemma {:induction false} SortStable(s: seq<Row>, key: string, dir: Direction, k: Kind, v: Cell)
    requires KeysOfKind(s, key, k)
    ensures Seqs.Filter(Sort(s, key, dir), KeyIs(key, v)) == Seqs.Filter(s, KeyIs(key, v))
  {
    if s != [] {
      var init, last := s[..|s| - 1], s[|s| - 1];
      SortStable(init, key, dir, k, v);
      SortSortedAux(init, key, dir, k);
      InsertStable(last, Sort(init, key, dir), key, dir, k, v);
      assert s == init + [last];
      Seqs.FilterAppend(init, [last], KeyIs(key, v));
    }
  }
}

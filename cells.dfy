/**
 * Table rows and their cell values. A cell is a primitive (string, number,
 * boolean, null, undefined) or an opaque renderable payload. `String(v)` is
 * the string form the search box matches against.
 */
module Cells {
  import Text
  import Seqs

  datatype Cell =
    | Str(s: string)
    | Num(n: int)
    | Bool(b: bool)
    | Null
    | Undefined
    | Opaque      // a rendered element, an object to the search and sort code

  /** `String(v)`. A rendered element is a plain object, whose string form is "[object Object]". */
  function ToStr(c: Cell): (r: string)
    ensures c.Str? ==> r == c.s
    ensures c.Num? ==> r == Text.IntToString(c.n)
  {
    match c
    case Str(s) => s
    case Num(n) => Text.IntToString(n)
    case Bool(b) => if b then "true" else "false"
    case Null => "null"
    case Undefined => "undefined"
    case Opaque => "[object Object]"
  }

  /** `v == null` in JavaScript: true of null and of undefined. */
  predicate IsNullish(c: Cell) {
    c.Null? || c.Undefined?
  }

  datatype Field = Field(key: string, value: Cell)

  /** A row: its numeric `id` and its other own properties in key order. */
  datatype Row = Row(id: int, fields: seq<Field>)

  /** Property keys are unique and the `id` property is held apart from the others. */
  predicate WellFormed(r: Row) {
    && (forall i :: 0 <= i < |r.fields| ==> r.fields[i].key != "id")
    && (forall i, j :: 0 <= i < j < |r.fields| ==> r.fields[i].key != r.fields[j].key)
  }

  /** `Object.values(row)`: the id followed by every other property's value. */
  function Values(r: Row): (vs: seq<Cell>)
    ensures |vs| == |r.fields| + 1 && vs[0] == Num(r.id)
    ensures forall i :: 0 <= i < |r.fields| ==> vs[i + 1] == r.fields[i].value
  {
    [Num(r.id)] + seq(|r.fields|, i requires 0 <= i < |r.fields| => r.fields[i].value)
  }

  /** The value of the first property named `key`, or undefined. */
  function FieldLookup(fs: seq<Field>, key: string): Cell
  {
    if fs == [] then Undefined
    else if fs[0].key == key then fs[0].value
    else FieldLookup(fs[1..], key)
  }

  /** `row[key]`: the id for "id", the property's value, or undefined when the row has no such property. */
  function Lookup(r: Row, key: string): (c: Cell)
    ensures key == "id" ==> c == Num(r.id)
  {
    if key == "id" then Num(r.id) else FieldLookup(r.fields, key)
  }

  /** The search test of both tables: some value's lower-cased string form contains the lower-cased query. */
  predicate Matches(r: Row, query: string) {
    var vs := Values(r);
    exists i :: 0 <= i < |vs| && Text.Contains(Text.Lower(ToStr(vs[i])), Text.Lower(query))
  }

  /** The empty query matches every row (a row always has at least its id). */
  lemma EmptyQueryMatches(r: Row)
    ensures Matches(r, "")
  {
    Text.EmptyContained(Text.Lower(ToStr(Values(r)[0])));
  }

  /** Matching ignores the case of the query. */
  lemma MatchesIgnoresQueryCase(r: Row, query: string)
    ensures Matches(r, query) <==> Matches(r, Text.Lower(query))
  {
    Text.LowerIdempotent(query);
  }

  /** A query that occurs, up to case, in the string form of some property matches the row. */
  lemma {:induction false} MatchesProperty(r: Row, i: nat, query: string)
    requires i < |r.fields|
    requires Text.Contains(Text.Lower(ToStr(r.fields[i].value)), Text.Lower(query))
    ensures Matches(r, query)
  {
    assert Values(r)[i + 1] == r.fields[i].value;
  }

  /** A query found in the id's decimal form matches the row: ids take part in the search too. */
  lemma MatchesId(r: Row, query: string)
    requires Text.Contains(Text.Lower(Text.IntToString(r.id)), Text.Lower(query))
    ensures Matches(r, query)
  {
    assert Values(r)[0] == Num(r.id);
  }

  function MatchesQuery(query: string): Row -> bool {
    r => Matches(r, query)
  }

  /** `filteredData`: the rows matching the search, in sorted order. */
  function Search(rows: seq<Row>, query: string): (r: seq<Row>)
    ensures Seqs.IsSubseq(r, rows)
    ensures forall x :: x in r <==> x in rows && Matches(x, query)
    ensures query == "" ==> r == rows
    ensures forall x :: multiset(r)[x] == if Matches(x, query) then multiset(rows)[x] else 0
  {
    forall x ensures multiset(Seqs.Filter(rows, MatchesQuery(query)))[x] == if Matches(x, query) then multiset(rows)[x] else 0 {
      Seqs.FilterCount(rows, MatchesQuery(query), x);
    }
    Seqs.FilterIsSubseq(rows, MatchesQuery(query));
    forall x ensures x in Seqs.Filter(rows, MatchesQuery(query)) <==> x in rows && Matches(x, query) {
      Seqs.FilterMembership(rows, MatchesQuery(query), x);
    }
    if query == "" then
      forall i | 0 <= i < |rows| ensures Matches(rows[i], "") { EmptyQueryMatches(rows[i]); }
      Seqs.FilterAll(rows, MatchesQuery(query));
      Seqs.Filter(rows, MatchesQuery(query))
    else Seqs.Filter(rows, MatchesQuery(query))
  }

}

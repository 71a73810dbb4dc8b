/**
 * The untyped collapsible table: its columns are the keys of the first row
 * (other than `id`), every header sorts, every cell shows the raw value, and
 * the page number only ever goes back to 1.
 */
module Table1 {
  import opened Wrappers
  import opened Cells
  import Seqs
  import Sorting
  import Paging
  import Visibility
  import Expansion
  import Table2

  /** The minimum width in pixels that one column needs. */
  const MinColWidth: nat := 120

  /** The choices of the rows-per-page menu. */
  const RowsPerPageOptions: seq<Paging.PageSize> := [5, 10, 25, 50, 100]

  datatype SortConfig = SortConfig(key: string, dir: Sorting.Direction)

  function NotId(k: string): bool { k != "id" }

  function FieldKeys(r: Row): (ks: seq<string>)
    ensures |ks| == |r.fields|
    ensures forall i :: 0 <= i < |ks| ==> ks[i] == r.fields[i].key
  {
    seq(|r.fields|, i requires 0 <= i < |r.fields| => r.fields[i].key)
  }

  /** `Object.keys(data[0]).filter(k => k !== "id")`, or no column for empty data. */
  function Columns(data: seq<Row>): (cols: seq<string>)
    ensures data == [] ==> cols == []
    ensures data != [] ==> Seqs.IsSubseq(cols, FieldKeys(data[0]))
    ensures forall k :: k in cols <==> data != [] && k != "id" && k in FieldKeys(data[0])
  {
    if data == [] then []
    else
      Seqs.FilterIsSubseq(FieldKeys(data[0]), NotId);
      forall k ensures k in Seqs.Filter(FieldKeys(data[0]), NotId) <==> k in FieldKeys(data[0]) && NotId(k) {
        Seqs.FilterMembership(FieldKeys(data[0]), NotId, k);
      }
      Seqs.Filter(FieldKeys(data[0]), NotId)
  }

  /** For a well-formed first row (no field named `id`) the columns are its field keys in order. */
  lemma ColumnsOfWellFormed(data: seq<Row>)
    requires data != [] && WellFormed(data[0])
    ensures Columns(data) == FieldKeys(data[0])
  {
    var ks := FieldKeys(data[0]);
    forall i | 0 <= i < |ks| ensures NotId(ks[i]) { }
    Seqs.FilterAll(ks, NotId);
  }

  /** The comparator of this table: `<` first, then `>`, otherwise 0, with no null guard. */
  function Compare(a: Cell, b: Cell, dir: Sorting.Direction): (r: int)
    ensures r < 0 <==> (if dir == Sorting.Asc then Sorting.Less(a, b) else Sorting.Less(b, a))
    ensures -1 <= r <= 1
  {
    Sorting.StrLessAsymmetric(a, b);
    if Sorting.Less(a, b) then (if dir == Sorting.Asc then -1 else 1)
    else if Sorting.Less(b, a) then (if dir == Sorting.Asc then 1 else -1)
    else 0
  }

  /** Away from null and undefined the unguarded comparator and the typed table's
      null-guarded comparator are the same function. */
  lemma CompareAgrees(a: Cell, b: Cell, dir: Sorting.Direction)
    requires !IsNullish(a) && !IsNullish(b)
    ensures Compare(a, b, dir) == Sorting.Compare(a, b, dir)
  {
  }

  /** `requestSort`: descending only when the same key is currently ascending. */
  function NextSort(prev: Option<SortConfig>, key: string): (r: SortConfig)
    ensures r.key == key
    ensures r.dir == Sorting.Desc <==> prev == Some(SortConfig(key, Sorting.Asc))
  {
    if prev.Some? && prev.value.key == key && prev.value.dir == Sorting.Asc
    then SortConfig(key, Sorting.Desc)
    else SortConfig(key, Sorting.Asc)
  }

  function AsTyped(c: SortConfig): Table2.SortConfig {
    Table2.SortConfig(Table2.StrKey(c.key), c.dir)
  }

  /** Both tables follow the same rule: a repeated key flips the direction, a new key starts ascending. */
  lemma SameRuleAsTypedTable(prev: Option<SortConfig>, key: string)
    ensures AsTyped(NextSort(prev, key))
         == Table2.NextSort(if prev.None? then None else Some(AsTyped(prev.value)), Table2.StrKey(key))
  {
  }

  /** `sortedData`: the data sorted by the configured key, or as given. */
  function SortRows(data: seq<Row>, config: Option<SortConfig>): (r: seq<Row>)
    ensures config.None? ==> r == data
    ensures multiset(r) == multiset(data)
  {
    match config
    case None => data
    case Some(c) =>
      Sorting.SortPermutation(data, c.key, c.dir);
      Sorting.Sort(data, c.key, c.dir)
  }

  /** With keys of one kind the sorted data is ordered by this table's comparator
      and keeps rows with equal keys in their input order. */
  lemma SortRowsOrdered(data: seq<Row>, c: SortConfig, k: Sorting.Kind, v: Cell)
    requires Sorting.KeysOfKind(data, c.key, k)
    ensures var r := SortRows(data, Some(c));
            forall i, j :: 0 <= i < j < |r| ==> Compare(Lookup(r[j], c.key), Lookup(r[i], c.key), c.dir) >= 0
    ensures Seqs.Filter(SortRows(data, Some(c)), Sorting.KeyIs(c.key, v))
         == Seqs.Filter(data, Sorting.KeyIs(c.key, v))
  {
    Sorting.SortSortedAux(data, c.key, c.dir, k);
    Sorting.SortStable(data, c.key, c.dir, k, v);
    SortedByCompare(Sorting.Sort(data, c.key, c.dir), c.key, c.dir, k);
  }

  lemma SortedByCompare(r: seq<Row>, key: string, dir: Sorting.Direction, k: Sorting.Kind)
    requires Sorting.Sorted(r, key, dir) && Sorting.KeysOfKind(r, key, k)
    ensures forall i, j :: 0 <= i < j < |r| ==> Compare(Lookup(r[j], key), Lookup(r[i], key), dir) >= 0
  {
    forall i, j | 0 <= i < j < |r|
      ensures Compare(Lookup(r[j], key), Lookup(r[i], key), dir) >= 0
    {
      assert !Sorting.Precedes(r[j], r[i], key, dir);
      CompareAgrees(Lookup(r[j], key), Lookup(r[i], key), dir);
    }
  }

  /** One line of the detail panel: the column key and the raw value. */
  datatype DetailLine = DetailLine(key: string, value: Cell)

  function Lines(columns: seq<string>, row: Row): (r: seq<DetailLine>)
    ensures |r| == |columns|
    ensures forall i :: 0 <= i < |columns| ==> r[i] == DetailLine(columns[i], Lookup(row, columns[i]))
  {
    seq(|columns|, i requires 0 <= i < |columns| => DetailLine(columns[i], Lookup(row, columns[i])))
  }

  class UntypedTable {
    const data: seq<Row>

    var search: string
    var sortConfig: Option<SortConfig>
    var page: int
    var expandedRows: set<int>
    var rowsPerPage: Paging.PageSize
    var allExpanded: bool
    var visibleColumnsCount: nat

    /** Nothing in this table moves the page away from 1. */
    predicate Valid()
      reads this
    {
      page == 1
    }

    constructor (data: seq<Row>, rowsPerPage: Paging.PageSize)
      ensures Valid()
      ensures this.data == data && this.rowsPerPage == rowsPerPage
      ensures search == "" && sortConfig == None
      ensures expandedRows == {} && !allExpanded && visibleColumnsCount == 0
    {
      this.data := data;
      this.rowsPerPage := rowsPerPage;
      search := "";
      sortConfig := None;
      page := 1;
      expandedRows := {};
      allExpanded := false;
      visibleColumnsCount := 0;
    }

    function ColumnKeys(): seq<string>
      reads this
    {
      Columns(data)
    }

    function SortedData(): (r: seq<Row>)
      reads this
      ensures multiset(r) == multiset(data)
      ensures sortConfig.None? ==> r == data
    {
      SortRows(data, sortConfig)
    }

    function FilteredData(): (r: seq<Row>)
      reads this
      ensures Seqs.IsSubseq(r, SortedData())
      ensures forall x :: x in r <==> x in data && Matches(x, search)
      ensures forall x :: multiset(r)[x] == if Matches(x, search) then multiset(data)[x] else 0
    {
      var sorted := SortedData();
      assert forall x :: x in sorted <==> x in data by {
        forall x ensures x in sorted <==> x in data {
          assert x in sorted <==> x in multiset(sorted);
        }
      }
      Search(sorted, search)
    }

    /** The rows on screen: always the first page of the filtered rows. */
    function PaginatedData(): (r: seq<Row>)
      reads this
      requires Valid()
      ensures r == FilteredData()[..if rowsPerPage <= |FilteredData()| then rowsPerPage else |FilteredData()|]
    {
      Paging.PageRows(FilteredData(), page, rowsPerPage)
    }

    function HasHiddenColumns(): (b: bool)
      reads this
      ensures b <==> visibleColumnsCount < |ColumnKeys()|
    {
      Visibility.HasHiddenIff(|ColumnKeys()|, visibleColumnsCount);
      Visibility.HasHidden(|ColumnKeys()|, visibleColumnsCount)
    }

    /** The detail panel of an expanded row: a line per hidden column, in column order. */
    function DetailPanel(row: Row): (r: seq<DetailLine>)
      reads this
      ensures r == Lines(ColumnKeys(), row)[Visibility.Min(visibleColumnsCount, |ColumnKeys()|)..]
    {
      Visibility.ShownAndDemoted(Lines(ColumnKeys(), row), visibleColumnsCount);
      Visibility.Demoted(Lines(ColumnKeys(), row), visibleColumnsCount, 0)
    }

    method HandleResize(width: nat)
      requires Valid()
      modifies this
      ensures Valid()
      ensures visibleColumnsCount == Visibility.VisibleCount(width, MinColWidth, |ColumnKeys()|)
      ensures search == old(search) && sortConfig == old(sortConfig) && expandedRows == old(expandedRows)
      ensures rowsPerPage == old(rowsPerPage) && allExpanded == old(allExpanded)
    {
      visibleColumnsCount := Visibility.VisibleCount(width, MinColWidth, |ColumnKeys()|);
    }

    /** A click on any header sorts by that column. */
    method RequestSort(key: string)
      requires Valid()
      modifies this
      ensures Valid()
      ensures sortConfig == Some(NextSort(old(sortConfig), key))
      ensures search == old(search) && expandedRows == old(expandedRows)
      ensures rowsPerPage == old(rowsPerPage) && allExpanded == old(allExpanded)
      ensures visibleColumnsCount == old(visibleColumnsCount)
    {
      var dir := Sorting.Asc;
      if sortConfig.Some? && sortConfig.value.key == key && sortConfig.value.dir == Sorting.Asc {
        dir := Sorting.Desc;
      }
      sortConfig := Some(SortConfig(key, dir));
    }

    method ToggleRow(id: int)
      requires Valid()
      modifies this
      ensures Valid()
      ensures expandedRows == Expansion.Toggle(old(expandedRows), id)
      ensures search == old(search) && sortConfig == old(sortConfig)
      ensures rowsPerPage == old(rowsPerPage) && allExpanded == old(allExpanded)
      ensures visibleColumnsCount == old(visibleColumnsCount)
    {
      if id in expandedRows {
        expandedRows := expandedRows - {id};
      } else {
        expandedRows := expandedRows + {id};
      }
    }

    method ToggleAllRows()
      requires Valid()
      modifies this
      ensures Valid()
      ensures expandedRows == Expansion.ToggleAll(old(allExpanded), data)
      ensures allExpanded == !old(allExpanded)
      ensures search == old(search) && sortConfig == old(sortConfig)
      ensures rowsPerPage == old(rowsPerPage) && visibleColumnsCount == old(visibleColumnsCount)
    {
      if allExpanded {
        expandedRows := {};
      } else {
        expandedRows := Expansion.AllIds(data);
      }
      allExpanded := !allExpanded;
    }

    method SetSearch(text: string)
      requires Valid()
      modifies this
      ensures Valid()
      ensures search == text
      ensures sortConfig == old(sortConfig) && expandedRows == old(expandedRows)
      ensures rowsPerPage == old(rowsPerPage) && allExpanded == old(allExpanded)
      ensures visibleColumnsCount == old(visibleColumnsCount)
    {
      search := text;
    }

    method SetRowsPerPage(n: Paging.PageSize)
      requires Valid() && n in RowsPerPageOptions
      modifies this
      ensures Valid()
      ensures rowsPerPage == n
      ensures search == old(search) && sortConfig == old(sortConfig) && expandedRows == old(expandedRows)
      ensures allExpanded == old(allExpanded) && visibleColumnsCount == old(visibleColumnsCount)
    {
      rowsPerPage := n;
      page := 1;
    }
  }
}

/**
 * The typed collapsible table (`CollapsibleTable` with declared columns).
 *
 * Its state is the search text, the sort configuration, the page number, the
 * rows-per-page choice, the set of expanded row ids, the expand-all flag and the
 * number of columns that fit. Each render derives, from that state and the
 * data, the sorted rows, the rows matching the search, the current page and the
 * split of the columns into those shown in the row and those listed in the
 * row's detail panel.
 */
module Table2 {
  import opened Wrappers
  import opened Cells
  import Text
  import Seqs
  import Sorting
  import Paging
  import Visibility
  import Expansion

  /** A column key as declared: a property name, or a number (which `typeof` does not report as "string"). */
  datatype ColumnKey = StrKey(name: string) | NumKey(index: int)

  /** The property a key reads: `row[key]` converts a numeric key to its decimal string. */
  function PropName(k: ColumnKey): (p: string)
    ensures k.StrKey? ==> p == k.name
  {
    match k
    case StrKey(name) => name
    case NumKey(n) => Text.IntToString(n)
  }

  /** A column: key, header text, whether it is sortable, and whether it has its own renderer. */
  datatype Column = Column(key: ColumnKey, header: string, sortable: bool, hasRender: bool)

  /** What a cell shows: the renderer's output (opaque here) or the row's raw value. */
  datatype Content = Rendered | Raw(value: Cell)

  /** One line of the detail panel: the column header and the cell's content. */
  datatype DetailLine = DetailLine(header: string, content: Content)

  datatype SortConfig = SortConfig(key: ColumnKey, dir: Sorting.Direction)

  /** The minimum width in pixels that one column needs. */
  const MinColWidth: nat := 140

  /** The choices of the rows-per-page menu. */
  const RowsPerPageOptions: seq<Paging.PageSize> := [5, 10, 25, 50]

  /** `requestSort`: the same key flips the direction; another key sorts ascending by it. */
  function NextSort(prev: Option<SortConfig>, key: ColumnKey): (r: SortConfig)
    ensures r.key == key
    ensures prev.Some? && prev.value.key == key ==> r.dir != prev.value.dir
    ensures !(prev.Some? && prev.value.key == key) ==> r.dir == Sorting.Asc
  {
    if prev.Some? && prev.value.key == key then
      SortConfig(key, if prev.value.dir == Sorting.Asc then Sorting.Desc else Sorting.Asc)
    else SortConfig(key, Sorting.Asc)
  }

  /** Requesting the same key twice restores the configuration. */
  lemma NextSortTwice(c: SortConfig)
    ensures NextSort(Some(NextSort(Some(c), c.key)), c.key) == c
  {
  }

  /** `sortedData`: a copy of the data, sorted by the configured key when there is one. */
  function SortRows(data: seq<Row>, config: Option<SortConfig>): (r: seq<Row>)
    ensures config.None? ==> r == data
    ensures multiset(r) == multiset(data)
  {
    match config
    case None => data
    case Some(c) =>
      Sorting.SortPermutation(data, PropName(c.key), c.dir);
      Sorting.Sort(data, PropName(c.key), c.dir)
  }

  /** With keys of one kind the sorted data is ordered by the key and keeps
      rows with equal keys in their input order. */
  lemma SortRowsOrdered(data: seq<Row>, c: SortConfig, k: Sorting.Kind, v: Cell)
    requires Sorting.KeysOfKind(data, PropName(c.key), k)
    ensures Sorting.Sorted(SortRows(data, Some(c)), PropName(c.key), c.dir)
    ensures Seqs.Filter(SortRows(data, Some(c)), Sorting.KeyIs(PropName(c.key), v))
         == Seqs.Filter(data, Sorting.KeyIs(PropName(c.key), v))
  {
    Sorting.SortSorted(data, PropName(c.key), c.dir, k);
    Sorting.SortStable(data, PropName(c.key), c.dir, k, v);
  }

  /** What a cell of column `col` shows for `row`. */
  function CellContent(col: Column, row: Row): Content {
    if col.hasRender then Rendered else Raw(Lookup(row, PropName(col.key)))
  }

  /** The detail line every column would contribute for `row`. */
  function Lines(columns: seq<Column>, row: Row): (r: seq<DetailLine>)
    ensures |r| == |columns|
    ensures forall i :: 0 <= i < |columns| ==> r[i] == DetailLine(columns[i].header, CellContent(columns[i], row))
  {
    seq(|columns|, i requires 0 <= i < |columns| => DetailLine(columns[i].header, CellContent(columns[i], row)))
  }

  /** Twenty-three rows at ten per page make three pages; the last holds rows 21 to 23. */
  lemma ThreePagesOfTen(rows: seq<Row>)
    requires |rows| == 23
    ensures Paging.TotalPages(|rows|, 10) == 3
    ensures Paging.PageRows(rows, 3, 10) == rows[20..23]
    ensures Paging.From(3, 10) == 21 && Paging.To(3, 10, |rows|) == 23
  {
  }

  /** The pagination buttons. */
  datatype Button = First | Prev | Next | Last

  /** The page a button click leads to, from page `page` with `total` pages: a
      disabled button leaves the page alone. */
  function Navigate(b: Button, page: int, total: nat): (r: int)
    ensures b == First ==> r == 1
    ensures b == Last ==> r == total
    ensures 1 <= page <= total ==> 1 <= r <= total
    ensures b == Prev ==> (page == 1 <==> r == page)
    ensures b == Next ==> (page == total <==> r == page)
    ensures b == Prev && page != 1 ==> r == page - 1
    ensures b == Next && page != total ==> r == page + 1
  {
    match b
    case First => 1
    case Prev => if page == 1 then page else page - 1
    case Next => if page == total then page else page + 1
    case Last => total
  }

  /** With no row to show there are no pages, yet "Next" is enabled on page 1 and
      leads to page 2; "Last" leads to page 0. */
  lemma NextLeavesEmptyTable()
    ensures Navigate(Next, 1, 0) == 2
    ensures Navigate(Last, 1, 0) == 0
  {
  }

  class CollapsibleTable {
    const data: seq<Row>
    const columns: seq<Column>

    var search: string
    var sortConfig: Option<SortConfig>
    var page: int
    var expandedRows: set<int>
    var rowsPerPage: Paging.PageSize
    var allExpanded: bool
    var visibleColumnsCount: nat

    /** The state on mount: nothing searched, sorted or expanded, page 1, and no
        column counted as visible until the first measurement. */
    constructor (data: seq<Row>, columns: seq<Column>, rowsPerPage: Paging.PageSize)
      ensures this.data == data && this.columns == columns && this.rowsPerPage == rowsPerPage
      ensures search == "" && sortConfig == None && page == 1
      ensures expandedRows == {} && !allExpanded && visibleColumnsCount == 0
    {
      this.data := data;
      this.columns := columns;
      this.rowsPerPage := rowsPerPage;
      search := "";
      sortConfig := None;
      page := 1;
      expandedRows := {};
      allExpanded := false;
      visibleColumnsCount := 0;
    }

    function SortedData(): (r: seq<Row>)
      reads this
      ensures multiset(r) == multiset(data)
      ensures sortConfig.None? ==> r == data
    {
      SortRows(data, sortConfig)
    }

    function FilteredData(): (r: seq<Row>)
      reads this
      ensures Seqs.IsSubseq(r, SortedData())
      ensures forall x :: x in r <==> x in data && Matches(x, search)
      ensures forall x :: multiset(r)[x] == if Matches(x, search) then multiset(data)[x] else 0
    {
      var sorted := SortedData();
      assert forall x :: x in sorted <==> x in data by {
        forall x ensures x in sorted <==> x in data {
          assert x in sorted <==> x in multiset(sorted);
        }
      }
      Search(sorted, search)
    }

    /** `Math.ceil(filteredData.length / rowsPerPageOption)`. */
    function TotalPages(): nat
      reads this
    {
      Paging.TotalPages(|FilteredData()|, rowsPerPage)
    }

    /** `paginatedData`: the current page's slice of the filtered rows. */
    function PaginatedData(): seq<Row>
      reads this
    {
      Paging.PageRows(FilteredData(), page, rowsPerPage)
    }

    /** The footer "Showing from–to of total". */
    function Footer(): (int, int, nat)
      reads this
    {
      (Paging.From(page, rowsPerPage), Paging.To(page, rowsPerPage, |FilteredData()|), |FilteredData()|)
    }

    /** Whether column `index` carries the `hidden` class: exactly the columns after
        the rendered prefix. */
    predicate IsColumnHidden(index: int)
      reads this
      ensures 0 <= index < |columns| ==> (IsColumnHidden(index) <==> index >= |VisibleColumns()|)
    {
      Visibility.IsHidden(index, visibleColumnsCount)
    }

    /** Whether the expand buttons are rendered: some column is hidden. */
    function HasHiddenColumns(): (b: bool)
      reads this
      ensures b <==> visibleColumnsCount < |columns|
    {
      Visibility.HasHiddenIff(|columns|, visibleColumnsCount);
      Visibility.HasHidden(|columns|, visibleColumnsCount)
    }

    /** The columns rendered in each row: a prefix of the declared columns. */
    function VisibleColumns(): (r: seq<Column>)
      reads this
      ensures r == columns[..Visibility.Min(visibleColumnsCount, |columns|)]
    {
      Visibility.ShownAndDemoted(columns, visibleColumnsCount);
      Visibility.Shown(columns, visibleColumnsCount, 0)
    }

    /** The detail panel of an expanded row: one line per hidden column, in declaration order. */
    function DetailPanel(row: Row): (r: seq<DetailLine>)
      reads this
      ensures r == Lines(columns, row)[Visibility.Min(visibleColumnsCount, |columns|)..]
      ensures |r| == |columns| - Visibility.Min(visibleColumnsCount, |columns|)
    {
      Visibility.ShownAndDemoted(Lines(columns, row), visibleColumnsCount);
      Visibility.Demoted(Lines(columns, row), visibleColumnsCount, 0)
    }

    /** `handleResize`, given the measured table width. */
    method HandleResize(width: nat)
      modifies this
      ensures visibleColumnsCount == Visibility.VisibleCount(width, MinColWidth, |columns|)
      ensures search == old(search) && sortConfig == old(sortConfig) && page == old(page)
      ensures expandedRows == old(expandedRows) && rowsPerPage == old(rowsPerPage)
      ensures allExpanded == old(allExpanded)
    {
      visibleColumnsCount := Visibility.VisibleCount(width, MinColWidth, |columns|);
    }

    method RequestSort(key: ColumnKey)
      modifies this
      ensures sortConfig == Some(NextSort(old(sortConfig), key))
      ensures search == old(search) && page == old(page) && expandedRows == old(expandedRows)
      ensures rowsPerPage == old(rowsPerPage) && allExpanded == old(allExpanded)
      ensures visibleColumnsCount == old(visibleColumnsCount)
    {
      sortConfig := Some(NextSort(sortConfig, key));
    }

    /** A click on header `i`: it sorts only a sortable column whose key is not a string. */
    method HeaderClick(i: nat)
      requires i < |columns|
      modifies this
      ensures columns[i].sortable && columns[i].key.NumKey? ==> sortConfig == Some(NextSort(old(sortConfig), columns[i].key))
      ensures !(columns[i].sortable && columns[i].key.NumKey?) ==> sortConfig == old(sortConfig)
      ensures search == old(search) && page == old(page) && expandedRows == old(expandedRows)
      ensures rowsPerPage == old(rowsPerPage) && allExpanded == old(allExpanded)
      ensures visibleColumnsCount == old(visibleColumnsCount)
    {
      if columns[i].sortable && columns[i].key.NumKey? {
        RequestSort(columns[i].key);
      }
    }

    method ToggleRow(id: int)
      modifies this
      ensures expandedRows == Expansion.Toggle(old(expandedRows), id)
      ensures search == old(search) && sortConfig == old(sortConfig) && page == old(page)
      ensures rowsPerPage == old(rowsPerPage) && allExpanded == old(allExpanded)
      ensures visibleColumnsCount == old(visibleColumnsCount)
    {
      expandedRows := Expansion.Toggle(expandedRows, id);
    }

    /** Expand every row of the data (not only the current page), or collapse all. */
    method ToggleAllRows()
      modifies this
      ensures expandedRows == Expansion.ToggleAll(old(allExpanded), data)
      ensures allExpanded == !old(allExpanded)
      ensures search == old(search) && sortConfig == old(sortConfig) && page == old(page)
      ensures rowsPerPage == old(rowsPerPage) && visibleColumnsCount == old(visibleColumnsCount)
    {
      expandedRows := Expansion.ToggleAll(allExpanded, data);
      allExpanded := !allExpanded;
    }

    /** Typing in the search box: the page number is left as it is. */
    method SetSearch(text: string)
      modifies this
      ensures search == text
      ensures sortConfig == old(sortConfig) && page == old(page) && expandedRows == old(expandedRows)
      ensures rowsPerPage == old(rowsPerPage) && allExpanded == old(allExpanded)
      ensures visibleColumnsCount == old(visibleColumnsCount)
    {
      search := text;
    }

    /** Choosing a rows-per-page option: back to page 1. */
    method SetRowsPerPage(n: Paging.PageSize)
      requires n in RowsPerPageOptions
      modifies this
      ensures rowsPerPage == n && page == 1
      ensures search == old(search) && sortConfig == old(sortConfig) && expandedRows == old(expandedRows)
      ensures allExpanded == old(allExpanded) && visibleColumnsCount == old(visibleColumnsCount)
    {
      rowsPerPage := n;
      page := 1;
    }

    /** The "First" button, disabled on page 1. */
    method FirstPage()
      modifies this
      ensures page == Navigate(First, old(page), old(TotalPages()))
      ensures search == old(search) && sortConfig == old(sortConfig) && expandedRows == old(expandedRows)
      ensures rowsPerPage == old(rowsPerPage) && allExpanded == old(allExpanded)
      ensures visibleColumnsCount == old(visibleColumnsCount)
    {
      if page != 1 {
        page := 1;
      }
    }

    /** The "Prev" button, disabled on page 1. */
    method PrevPage()
      modifies this
      ensures page == Navigate(Prev, old(page), old(TotalPages()))
      ensures search == old(search) && sortConfig == old(sortConfig) && expandedRows == old(expandedRows)
      ensures rowsPerPage == old(rowsPerPage) && allExpanded == old(allExpanded)
      ensures visibleColumnsCount == old(visibleColumnsCount)
    {
      if page != 1 {
        page := page - 1;
      }
    }

    /** The "Next" button, disabled only when the page number equals the page count. */
    method NextPage()
      modifies this
      ensures page == Navigate(Next, old(page), old(TotalPages()))
      ensures search == old(search) && sortConfig == old(sortConfig) && expandedRows == old(expandedRows)
      ensures rowsPerPage == old(rowsPerPage) && allExpanded == old(allExpanded)
      ensures visibleColumnsCount == old(visibleColumnsCount)
    {
      if page != TotalPages() {
        page := page + 1;
      }
    }

    /** The "Last" button, disabled only when the page number equals the page count. */
    method LastPage()
      modifies this
      ensures page == Navigate(Last, old(page), old(TotalPages()))
      ensures search == old(search) && sortConfig == old(sortConfig) && expandedRows == old(expandedRows)
      ensures rowsPerPage == old(rowsPerPage) && allExpanded == old(allExpanded)
      ensures visibleColumnsCount == old(visibleColumnsCount)
    {
      if page != TotalPages() {
        page := TotalPages();
      }
    }
  }
}

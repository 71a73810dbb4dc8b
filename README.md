# Invomas table engine and UI state, in Dafny

This project models the state logic of the Invomas inventory front end, a React
application. The UI is left out. What is modelled is the part that computes:

- The two collapsible data tables (`Table2.tsx` and `Table.tsx`). Each one sorts
  its rows by a column, searches every value of a row case-insensitively, and
  cuts the result into pages. It hides the columns that do not fit the measured
  width and shows the hidden columns in a detail panel under every expanded row.
- The validation utilities (`validation.ts`) and the registration rule built
  from them.
- The notifications page (`Notifications.tsx`): tab filters, the unread count,
  mark-as-read and delete.
- The searchable single/multi select (`Select2.tsx`). It removes duplicate
  options by value, filters options by label, and keeps a selection that is a
  toggle list in multi mode and a single value in single mode.
- The sidebar context (`SidebarContext.tsx`) and the side navigation layout
  that uses it (`SideNavBarLayout.tsx`): collapse, pin, and hover expansion.
- The two theme holders: the two-theme context (`ThemeContext.tsx`) and the
  four-theme hook (`useTheme.ts`).
- The validity tracking of the text input (`TextInput.tsx`).

## Structure

| file | module | what it holds |
|---|---|---|
| `wrappers.dfy` | `Wrappers` | `Option` |
| `seqs.dfy` | `Seqs` | `Array.prototype.filter` as `Filter`; subsequence; `slice` with clamped bounds |
| `text.dfy` | `Text` | ASCII `toLowerCase`, `includes`, `trim`, and `String(n)` for integers |
| `cells.dfy` | `Cells` | row cells, `String(v)`, `Object.values`, and the row search shared by both tables |
| `sorting.dfy` | `Sorting` | JavaScript `<` on cells, the comparator, and a stable sort as `Array.prototype.sort` |
| `paging.dfy` | `Paging` | `Math.ceil` page counts, page slices, and the footer range |
| `visibility.dfy` | `Visibility` | visible column count, and which columns are shown or moved to the detail panel |
| `expansion.dfy` | `Expansion` | the expanded-row id set |
| `table2.dfy` | `Table2` | the typed table, as class `CollapsibleTable` |
| `table1.dfy` | `Table1` | the untyped table, as class `UntypedTable` |
| `validation.dfy` | `Validation` | the validators, with every regular expression decided by a scan and proved equal to a declarative description |
| `notifications.dfy` | `Notifications` | list operations, and class `NotificationsPage` |
| `select2.dfy` | `Select2` | option dedupe, filtering, selection, and class `Select` |
| `sidebar_context.dfy` | `SidebarContext` | class `Sidebar` and the three hooks |
| `sidenav_layout.dfy` | `SideNavLayout` | class `Layout` |
| `theme_context.dfy` | `ThemeContext` | two-theme provider |
| `use_theme.dfy` | `UseTheme` | four-theme hook |
| `text_input.dfy` | `TextInput` | the built-in email pattern, the blur rule, and class `Field` |

React state that a component replaces through its setter is modelled as a
field of a class, and each event handler as a method. A handler's `ensures`
gives the field's new value in terms of a specification function and states
that every other field keeps its value. Derived values (`useMemo`,
expressions in the component body) are functions that read the fields.

### Behaviour the code has, stated precisely

Where the code and the intent one might read into it differ, the model follows
the code.

- Column hiding goes by position. Column `i` is hidden exactly when `i >= visibleColumnsCount`. There is no priority.
- "Expand all" expands the ids of all of `data`, not only the rows of the current page or search.
- The search compares with every value of `Object.values(row)`, including `id`.
  An object-valued cell takes part as `"[object Object]"`, `null` as `"null"`,
  and `undefined` as `"undefined"`.
- Typing in the search box does not reset the page. Neither table clamps the page to the new page count.
- In the typed table the footer of an empty result reads "Showing 1–0 of 0".
  Next and Last are enabled there (`page === totalPages` is `1 === 0`), so they move to page 2 and page 0.
- The typed table only attaches the sort handler to a header when the column is
  `sortable` and its key is not a string (`Table2.tsx:200`). Every property name
  of a row is a string, so in practice only numeric keys (array-like indexes) are sortable by clicking.
- The untyped table renders the `Pagination` component with a fixed page and a
  logging callback. Its `page` never changes from 1, which is the class invariant of `UntypedTable`.
- The comparator of the untyped table has no null guard. On keys that are not
  null or undefined it is the typed table's comparator (`Table1.CompareAgrees`).
  With null keys the two differ in JavaScript: `null < 5` coerces null to 0 and
  holds, so the untyped table sorts a null key like 0, while the typed table
  leaves every pair with a null key equal. The model does not capture that
  coercion (see `Table1.Compare` under "Left out").
- String lengths and string order are those of JavaScript, i.e. of UTF-16 code
  units. A character outside the Basic Multilingual Plane counts twice towards
  `minLength`, `maxLength` and the 8-character password check
  (`Validation.AstralCharCountsTwice`, `TextInput.FourEmojiPassBlur`), and sorts
  before characters from U+E000 to U+FFFF (`Sorting.SurrogatesSortFirst`).
- The text input checks a plain `type="text"` value against the email pattern
  when no `pattern` is given (`TextInput.tsx:66`). A plain word such as "hello" is marked invalid on blur.
- `validateRegistration` does not call `isRequired` on the password. A strong password is non-blank anyway (`Validation.AcceptedRegistration`).

## Model

| member | source | states |
|---|---|---|
| Table2.CollapsibleTable.constructor | src/components/ui/Table2.tsx:37-52 | initial state: empty search, no sort, page 1, nothing expanded, not all expanded, zero visible columns, the given rows per page |
| Visibility.VisibleCount | src/components/ui/Table2.tsx:63-66 | the count is the smaller of the column count and max(1, floor(width / minColWidth)); at least 1 when there are columns |
| Visibility.VisibleCountMonotone | src/components/ui/Table2.tsx:65-66 | a wider table never shows fewer columns |
| Table2.CollapsibleTable.HandleResize | src/components/ui/Table2.tsx:60-72 | the visible count becomes the count for the given width at 140 px per column; no other state changes |
| Visibility.HasHiddenIff | src/components/ui/Table2.tsx:74-75 | some column index is hidden if and only if the visible count is below the column count |
| Table2.CollapsibleTable.HasHiddenColumns | src/components/ui/Table2.tsx:74-75 | true exactly when fewer columns are visible than exist |
| Table2.CollapsibleTable.IsColumnHidden | src/components/ui/Table2.tsx:74 | a column gets the `hidden` class exactly when it lies after the rendered prefix of columns |
| Table2.CollapsibleTable.VisibleColumns | src/components/ui/Table2.tsx:243-253 | the columns drawn in the row are exactly the leading `min(count, columns)` columns |
| Visibility.ShownAndDemoted | src/components/ui/Table2.tsx:243-268 | the shown columns are a prefix and the detail-panel columns the rest; together they are every column, in order, once |
| Visibility.NarrowerDemotesMore | src/components/ui/Table2.tsx:60-75 | narrowing the table moves a superset of columns into the detail panel: the wide panel is a suffix of the narrow one |
| Table2.Lines | src/components/ui/Table2.tsx:259-268 | one detail line per column, carrying the column header and the rendered or raw cell |
| Table2.CollapsibleTable.DetailPanel | src/components/ui/Table2.tsx:256-270 | the expanded panel lists exactly the hidden columns' lines, in column order, one per hidden column |
| Sorting.Compare | src/components/ui/Table2.tsx:84-93 | 0 when either value is null or undefined; negative exactly when the first value sorts first in the chosen direction, positive exactly when the second does |
| Sorting.PrecedesOrder | src/components/ui/Table2.tsx:88-92 | on keys of one kind the comparator is irreflexive, transitive and total on distinct values |
| Sorting.StrLessTransitive | src/components/ui/Table2.tsx:90-91 | JavaScript string `<`, the lexicographic order of UTF-16 code units, is transitive |
| Sorting.StrLessTotal | src/components/ui/Table2.tsx:90-91 | of two different strings one is less than the other in UTF-16 code-unit order |
| Text.Utf16Injective | src/components/ui/Table2.tsx:90-91 | different strings have different UTF-16 encodings |
| Sorting.SurrogatesSortFirst | src/components/ui/Table2.tsx:90-91 | a character above U+FFFF sorts before U+FF01, as its leading surrogate is a smaller code unit |
| Sorting.SortPermutation | src/components/ui/Table2.tsx:84 | the sorted copy has the same rows with the same multiplicities as the input |
| Sorting.SortSorted | src/components/ui/Table2.tsx:84-93 | when all keys are of one kind, no row of the result sorts strictly before an earlier one |
| Sorting.SortStable | src/components/ui/Table2.tsx:84-93 | rows with equal keys keep their input order |
| Table2.SortRows | src/components/ui/Table2.tsx:81-94 | without a sort config the rows are returned unchanged; with one the result is a permutation of the data |
| Table2.SortRowsOrdered | src/components/ui/Table2.tsx:81-94 | with a sort config and keys of one kind, the result is sorted in the configured direction and stable |
| Table2.CollapsibleTable.SortedData | src/components/ui/Table2.tsx:81-94 | the memoised sorted copy is a permutation of `data`, and equal to it with no sort config |
| Table2.NextSort | src/components/ui/Table2.tsx:96-102 | the new config has the requested key; the direction flips when the key is the current one and is ascending otherwise |
| Table2.NextSortTwice | src/components/ui/Table2.tsx:96-102 | requesting the same key twice restores the config |
| Table2.CollapsibleTable.RequestSort | src/components/ui/Table2.tsx:96-102 | the sort config becomes `NextSort` of the old one; nothing else changes |
| Table2.CollapsibleTable.HeaderClick | src/components/ui/Table2.tsx:196-203 | a click requests a sort only for a sortable column whose key is not a string; otherwise the state is unchanged |
| Cells.ToStr | src/components/ui/Table2.tsx:111 | `String(v)`: a string is its own text and a number its decimal text (booleans, null, undefined and objects map to their fixed JavaScript texts) |
| Cells.Values | src/components/ui/Table2.tsx:110 | `Object.values(row)`: the id first, then every field value in order |
| Cells.EmptyQueryMatches | src/components/ui/Table2.tsx:108-114 | every row matches the empty search |
| Cells.MatchesIgnoresQueryCase | src/components/ui/Table2.tsx:111 | the search is insensitive to the case of the query |
| Cells.MatchesProperty | src/components/ui/Table2.tsx:110-111 | a row matches when any property's text contains the query, ignoring case |
| Cells.MatchesId | src/components/ui/Table2.tsx:110-111 | a row matches when its id's decimal text contains the query |
| Cells.Search | src/components/ui/Table2.tsx:108-114 | the result keeps the input order, keeps every matching row as often as it occurs and no other row, and is everything for the empty query |
| Table2.CollapsibleTable.FilteredData | src/components/ui/Table2.tsx:108-114 | an order-preserving subsequence of the sorted data holding each row of `data` that matches the search as often as it occurs in `data`, and no other row |
| Paging.TotalPagesBounds | src/components/ui/Table2.tsx:120 | `Math.ceil(len / n)`: the pages cover every row, the last page is non-empty, and zero rows give zero pages |
| Paging.PageAtMostN | src/components/ui/Table2.tsx:122-125 | a page never holds more than rows-per-page rows, whatever the page number |
| Paging.PageInRange | src/components/ui/Table2.tsx:122-125 | for a page in range the slice is the expected window; every page but the last is full |
| Paging.PagesConcatenate | src/components/ui/Table2.tsx:120-125 | pages 1 to `totalPages` concatenated give back the filtered rows exactly |
| Paging.FooterCountsPage | src/components/ui/Table2.tsx:281-285 | for a page in range the footer's "from–to" spans exactly the rows on the page, within 1 and the total |
| Table2.ThreePagesOfTen | src/components/ui/Table2.tsx:120-125 | 23 rows at 10 per page give 3 pages; page 3 holds rows 21 to 23 and the footer says "21–23" |
| Expansion.Toggle | src/components/ui/Table2.tsx:131-135 | toggling flips membership of that id and leaves every other id as it was |
| Expansion.ToggleTwice | src/components/ui/Table2.tsx:131-135 | toggling an id twice restores the set |
| Expansion.ToggleCommutes | src/components/ui/Table2.tsx:131-135 | toggles of two ids commute |
| Table2.CollapsibleTable.ToggleRow | src/components/ui/Table2.tsx:131-135 | the expanded set becomes its toggle at the id; nothing else changes |
| Expansion.AllIds | src/components/ui/Table2.tsx:139 | the set of ids of `data`: every row's id, and nothing else |
| Expansion.ToggleAll | src/components/ui/Table2.tsx:137-142 | collapsing gives the empty set, expanding gives all ids of `data` |
| Table2.CollapsibleTable.ToggleAllRows | src/components/ui/Table2.tsx:137-142 | the expanded set follows `ToggleAll` and the all-expanded flag flips |
| Table2.CollapsibleTable.SetSearch | src/components/ui/Table2.tsx:156 | the search text is replaced and the page is not reset |
| Table2.CollapsibleTable.SetRowsPerPage | src/components/ui/Table2.tsx:160-173 | choosing one of 5, 10, 25, 50 sets it and returns to page 1 |
| Table2.Navigate | src/components/ui/Table2.tsx:288-305 | First goes to 1 and Last to the page count; Prev and Next are disabled exactly on the first and last page and move by one otherwise; a page in range stays in range |
| Table2.NextLeavesEmptyTable | src/components/ui/Table2.tsx:294-305 | on an empty result Next goes to page 2 and Last to page 0 |
| Table2.CollapsibleTable.FirstPage | src/components/ui/Table2.tsx:288-290 | the page becomes `Navigate(First, …)`; nothing else changes |
| Table2.CollapsibleTable.PrevPage | src/components/ui/Table2.tsx:291-293 | the page becomes `Navigate(Prev, …)`; nothing else changes |
| Table2.CollapsibleTable.NextPage | src/components/ui/Table2.tsx:294-299 | the page becomes `Navigate(Next, …)`; nothing else changes |
| Table2.CollapsibleTable.LastPage | src/components/ui/Table2.tsx:300-305 | the page becomes `Navigate(Last, …)`; nothing else changes |
| Seqs.FilterIsSubseq | src/components/ui/Table2.tsx:109 | `filter` keeps the order of the kept elements |
| Seqs.FilterMembership | src/components/ui/Table2.tsx:109 | an element is kept exactly when it is in the input and satisfies the predicate |
| Seqs.JsSlice | src/components/ui/Table2.tsx:122-125 | `slice` with in-range bounds is the plain subsequence; it never grows |
| Text.Lower | src/components/ui/Table2.tsx:111 | `toLowerCase` maps each character: A–Z to a–z, the rest unchanged |
| Text.LowerIdempotent | src/components/ui/Table2.tsx:111 | lowering twice is lowering once |
| Text.ContainsAt | src/components/ui/Table2.tsx:111 | `includes` holds exactly when the needle occurs at some position |
| Text.NatToStringRoundTrip | src/components/ui/Table2.tsx:111 | the decimal text of a number reads back as that number |
| Text.IntToStringInjective | src/components/ui/Table2.tsx:111 | different integers have different texts |
| Table1.UntypedTable.constructor | src/components/ui/Table.tsx:12-19 | initial state: page 1, empty search, no sort, nothing expanded, zero visible columns |
| Table1.Columns | src/components/ui/Table.tsx:22 | no columns for empty data; otherwise the keys of the first row except `id`, in key order |
| Table1.ColumnsOfWellFormed | src/components/ui/Table.tsx:22 | for a row whose fields exclude `id`, the columns are all its keys |
| Table1.UntypedTable.HandleResize | src/components/ui/Table.tsx:25-36 | the visible count becomes the count at 120 px per column; nothing else changes |
| Table1.Compare | src/components/ui/Table.tsx:42-48 | negative exactly when the first value sorts first in the chosen direction |
| Table1.CompareAgrees | src/components/ui/Table.tsx:45-46 | on keys that are not null or undefined, the unguarded comparator equals the typed table's |
| Table1.SortRows | src/components/ui/Table.tsx:39-51 | unchanged without a config; otherwise a permutation of the data |
| Table1.SortRowsOrdered | src/components/ui/Table.tsx:39-51 | with a sort config and keys of one kind, no row compares before an earlier one under this table's comparator, and rows with equal keys keep their input order |
| Table1.UntypedTable.SortedData | src/components/ui/Table.tsx:39-51 | a permutation of `data`, and `data` itself with no sort config |
| Table1.UntypedTable.FilteredData | src/components/ui/Table.tsx:54-58 | an order-preserving subsequence of the sorted data holding each matching row as often as it occurs in `data`, and no other row |
| Table1.UntypedTable.PaginatedData | src/components/ui/Table.tsx:61 | with the page fixed at 1, the first rows-per-page matching rows |
| Table1.NextSort | src/components/ui/Table.tsx:63-67 | the direction is descending exactly when the previous config was this key ascending |
| Table1.SameRuleAsTypedTable | src/components/ui/Table.tsx:63-67 | the two tables' `requestSort` agree on every input |
| Table1.UntypedTable.RequestSort | src/components/ui/Table.tsx:63-67 | the sort config becomes `NextSort` of the old one; nothing else changes |
| Table1.UntypedTable.ToggleRow | src/components/ui/Table.tsx:69-74 | the expanded set becomes its toggle at the id |
| Table1.UntypedTable.ToggleAllRows | src/components/ui/Table.tsx:76-80 | collapse all or expand all ids of `data`; the flag flips |
| Table1.UntypedTable.HasHiddenColumns | src/components/ui/Table.tsx:83-84 | true exactly when fewer columns are visible than exist |
| Table1.Lines | src/components/ui/Table.tsx:167-174 | one line per column with its key and the row's value |
| Table1.UntypedTable.DetailPanel | src/components/ui/Table.tsx:163-178 | the hidden columns' lines, in column order |
| Table1.UntypedTable.SetSearch | src/components/ui/Table.tsx:94 | the search text is replaced |
| Table1.UntypedTable.SetRowsPerPage | src/components/ui/Table.tsx:102 | one of 5, 10, 25, 50, 100 is chosen; page stays 1 |
| Validation.IsRequired | src/utilities/validation.ts:2 | true exactly when some character is not whitespace |
| Text.TrimEmpty | src/utilities/validation.ts:2 | `trim()` is empty exactly when every character is whitespace |
| Validation.IsEmail | src/utilities/validation.ts:4-5 | true exactly when the value splits as local `@` domain `.` tld, with no whitespace or `@` in the parts |
| Validation.EmailIsRequired | src/utilities/validation.ts:4-5 | every email passes `isRequired` |
| Validation.LengthBounds | src/utilities/validation.ts:7-8 | both bounds are inclusive bounds on the UTF-16 length |
| Validation.AstralCharCountsTwice | src/utilities/validation.ts:7-8 | a character above U+FFFF counts as two towards both bounds |
| Validation.BmpLengthBounds | src/utilities/validation.ts:7-8 | for text inside the Basic Multilingual Plane the bounds are on the number of characters |
| Validation.NumericOfNat | src/utilities/validation.ts:10 | the decimal text of any natural number is numeric and reads back as that number |
| Validation.NumericExamples | src/utilities/validation.ts:10 | `/^\d+$/` accepts "007" and rejects the empty string, signs, a decimal point and a leading space |
| Validation.InRangeEnds | src/utilities/validation.ts:11-12 | both ends of a range are accepted, and the values just outside either end are rejected |
| Validation.StrongPasswordIsRequired | src/utilities/validation.ts:14-15 | a strong password contains no whitespace at all, so it is non-blank |
| Validation.NumericIsNotStrong | src/utilities/validation.ts:14-15 | an all-digit password is never strong |
| Validation.StrongPasswordExamples | src/utilities/validation.ts:14-15 | "Passw0rd!" is strong; a password missing an upper-case letter, a digit or a special character, holding a space, or of seven characters is not |
| Validation.IsPhoneNumber | src/utilities/validation.ts:20-21 | true exactly for 10–15 digits, optionally after one leading `+` |
| Validation.IsChecked | src/utilities/validation.ts:26 | true exactly for `true` |
| Validation.ValidateRegistration | src/utilities/validation.ts:31-36 | each message is returned exactly when its check is the first one to fail; no message exactly when all pass |
| Validation.AcceptedRegistration | src/utilities/validation.ts:31-36 | an accepted registration has a valid email and a strong, non-blank password |
| Notifications.Filtered | src/features/notifications/pages/Notifications.tsx:40-44 | "all" shows the list unchanged; every tab keeps the list order and shows each of its notifications as often as it occurs, and no other |
| Notifications.InventoryTabs | src/features/notifications/pages/Notifications.tsx:40-44 | an inventory notification shows only under "all", or "unread" while unread |
| Notifications.UnreadCount | src/features/notifications/pages/Notifications.tsx:46 | the count is the size of the unread tab, and 0 exactly when all are read |
| Notifications.BadgeIffUnread | src/features/notifications/pages/Notifications.tsx:93-94 | the count badge appears on the "Unread" tab only, and there exactly when some notification is unread |
| Notifications.MarkAll | src/features/notifications/pages/Notifications.tsx:48-50 | same notifications in the same order, all read; unread count 0 |
| Notifications.MarkRead | src/features/notifications/pages/Notifications.tsx:52-54 | same list with only the notifications of that id marked read |
| Notifications.MarkReadIdempotent | src/features/notifications/pages/Notifications.tsx:52-54 | marking the same id twice is marking it once |
| Notifications.MarkReadCount | src/features/notifications/pages/Notifications.tsx:52-54 | the unread count drops by exactly the number of unread notifications with that id |
| Notifications.Delete | src/features/notifications/pages/Notifications.tsx:56-58 | keeps order, removes every notification with that id and keeps every other one as often as it occurs, and never raises the unread count |
| Notifications.NotificationsPage.constructor | src/features/notifications/pages/Notifications.tsx:36-38 | starts with the given list under the "all" tab |
| Notifications.NotificationsPage.Visible | src/features/notifications/pages/Notifications.tsx:40-44 | the rendered list keeps the list order and holds each notification the active tab shows, as often as it occurs, and no other |
| Notifications.NotificationsPage.SelectTab | src/features/notifications/pages/Notifications.tsx:84 | the tab changes and the list does not |
| Notifications.NotificationsPage.MarkAllAsRead | src/features/notifications/pages/Notifications.tsx:48-50 | the list becomes `MarkAll` of the old one; unread count 0 |
| Notifications.NotificationsPage.MarkAsRead | src/features/notifications/pages/Notifications.tsx:52-54 | the list becomes `MarkRead` of the old one |
| Notifications.NotificationsPage.DeleteNotification | src/features/notifications/pages/Notifications.tsx:56-58 | the list becomes `Delete` of the old one |
| Select2.Select.constructor | src/components/ui/Select2.tsx:50-59 | empty input, nothing selected, closed, unfocused |
| Select2.UniqueSpec | src/components/ui/Select2.tsx:64-66 | the deduplicated options have distinct values, the same value set, each value's last option, in first-occurrence order |
| Select2.UniqueValues | src/components/ui/Select2.tsx:64-66 | distinct values and the same value set as the input |
| Select2.UniqueKeepsLast | src/components/ui/Select2.tsx:64-66 | the option kept for each value is its last one in the input |
| Select2.UniqueFirstOrder | src/components/ui/Select2.tsx:64-66 | values appear in the order of their first occurrence |
| Select2.Find | src/components/ui/Select2.tsx:78-80 | none exactly when no option has the value; otherwise the first option with it |
| Select2.Select.HandleClickOutside | src/components/ui/Select2.tsx:68-89 | closes and unfocuses; in single mode the input shows the selected option's label when it exists, otherwise the input is unchanged |
| Select2.ToggleValue | src/components/ui/Select2.tsx:93-97 | the value's membership flips, other values are unaffected, an absent value is appended, and distinctness is kept |
| Select2.ToggleValueTwice | src/components/ui/Select2.tsx:93-97 | selecting an unselected value twice restores the selection |
| Select2.Select.HandleSelect | src/components/ui/Select2.tsx:91-104 | multi mode toggles the value and clears the input; single mode selects only it, shows its label and closes |
| Select2.FilterOptions | src/components/ui/Select2.tsx:106-108 | keeps order and each option whose label contains the input, ignoring case, as often as it occurs, and no other; all for empty input |
| Select2.Placeholder | src/components/ui/Select2.tsx:119-123 | "N selected" in multi mode with a selection, the given placeholder otherwise |
| Select2.Displayed | src/components/ui/Select2.tsx:124-130 | single, unfocused, with a selection: the selected option's label, or "" when absent; otherwise the typed input |
| Select2.Select.HandleChange | src/components/ui/Select2.tsx:131 | the input becomes the typed text; nothing else changes |
| Select2.Select.HandleFocus | src/components/ui/Select2.tsx:132-136 | opens and focuses; single mode clears the input |
| SidebarContext.Sidebar.constructor | src/contexts/SidebarContext.tsx:14-18 | expanded and pinned |
| SidebarContext.Sidebar.EffectiveCollapsed | src/contexts/SidebarContext.tsx:29-30 | collapsed exactly when unpinned and collapsed |
| SidebarContext.Sidebar.SetIsCollapsed | src/contexts/SidebarContext.tsx:16 | sets the collapse flag only |
| SidebarContext.Sidebar.SetIsPinned | src/contexts/SidebarContext.tsx:18 | sets the pin flag only |
| SidebarContext.Sidebar.TogglePin | src/contexts/SidebarContext.tsx:20-27 | the pin flips; pinning also expands |
| SidebarContext.UseSidebar | src/contexts/SidebarContext.tsx:48-52 | the context inside a provider, otherwise the error "useSidebar must be used inside SidebarProvider" |
| SidebarContext.UseSidebarCollapsed | src/contexts/SidebarContext.tsx:54-57 | the effective collapse state, or false outside a provider |
| SidebarContext.UseSidebarPinned | src/contexts/SidebarContext.tsx:59-62 | the pin state, or false outside a provider |
| SidebarContext.UseSidebarTogglePin | src/contexts/SidebarContext.tsx:59-65 | the provider's toggle, or nothing outside a provider |
| SideNavLayout.WidthClass | src/components/layout/sidenavbar/SideNavBarLayout.tsx:64 | narrow exactly when effectively collapsed |
| SideNavLayout.Layout.constructor | src/components/layout/sidenavbar/SideNavBarLayout.tsx:29-37 | all four header/footer slots empty |
| SideNavLayout.Layout.RegisterHeader | src/components/layout/sidenavbar/SideNavBarLayout.tsx:41-42 | writes the sticky or the scrolling header slot, as asked, and no other |
| SideNavLayout.Layout.RegisterFooter | src/components/layout/sidenavbar/SideNavBarLayout.tsx:43-44 | writes the sticky or the scrolling footer slot, as asked, and no other |
| SideNavLayout.Layout.HandleMouseEnter | src/components/layout/sidenavbar/SideNavBarLayout.tsx:47-49 | expands an unpinned sidebar; a pinned one is untouched |
| SideNavLayout.Layout.HandleMouseLeave | src/components/layout/sidenavbar/SideNavBarLayout.tsx:51-53 | collapses an unpinned sidebar; a pinned one is untouched |
| ThemeContext.InitialTheme | src/contexts/ThemeContext.tsx:28-35 | a saved valid theme wins when `window` exists; otherwise the initial theme |
| ThemeContext.ThemeProvider.constructor | src/contexts/ThemeContext.tsx:24-35 | starts valid, at `InitialTheme` |
| ThemeContext.Toggle | src/contexts/ThemeContext.tsx:42-48 | light goes to dark and anything else to light; always valid |
| ThemeContext.ToggleTwoCycle | src/contexts/ThemeContext.tsx:42-48 | on valid themes toggling always changes the theme and twice restores it |
| ThemeContext.ThemeProvider.SetTheme | src/contexts/ThemeContext.tsx:28 | sets the given valid theme |
| ThemeContext.ThemeProvider.ToggleTheme | src/contexts/ThemeContext.tsx:42-48 | the theme becomes `Toggle` of the old one and stays valid |
| ThemeContext.UseTheme | src/contexts/ThemeContext.tsx:58-62 | the provider inside one, otherwise the error "useTheme must be used within a ThemeProvider" |
| UseTheme.InitialTheme | src/hooks/useTheme.ts:9-19 | a saved valid theme wins when `window` exists; otherwise the initial theme |
| UseTheme.Hook.constructor | src/hooks/useTheme.ts:7-19 | starts valid, at `InitialTheme` |
| UseTheme.Toggle | src/hooks/useTheme.ts:29-36 | light-slate → dark-slate → light-green → dark-green → light-slate; anything else → light-slate |
| UseTheme.FourCycle | src/hooks/useTheme.ts:29-36 | four toggles restore a valid theme, and fewer never do |
| UseTheme.ToggleEntersCycle | src/hooks/useTheme.ts:29-36 | after one toggle from any value, the theme is on the four-cycle |
| UseTheme.Hook.SetTheme | src/hooks/useTheme.ts:9 | sets the given valid theme |
| UseTheme.Hook.ToggleTheme | src/hooks/useTheme.ts:29-36 | the theme becomes `Toggle` of the old one and stays valid |
| TextInput.MatchesEmailPattern | src/components/TextInput.tsx:57 | true exactly when the value splits as lower-case local `@` domain `.` two or more lower-case letters |
| TextInput.EmailPatternIsEmail | src/components/TextInput.tsx:57 | the input's built-in pattern is stricter than `isEmail` |
| TextInput.BlurInvalid | src/components/TextInput.tsx:53-67 | a non-empty pattern that does not compile throws before any verdict, whatever the type; otherwise a password is invalid exactly below 8 UTF-16 code units; every other type fails exactly when the caller's pattern, or else the built-in email pattern, does not match |
| TextInput.PlainTextMarkedInvalid | src/components/TextInput.tsx:66 | a plain text input holding "hello" with no pattern is marked invalid on blur |
| TextInput.FourEmojiPassBlur | src/components/TextInput.tsx:61-63 | a password of four emoji has length 8 and is marked valid on blur when the pattern compiles |
| TextInput.StrongPasswordPassesBlur | src/components/TextInput.tsx:57-63 | a password that `isStrongPassword` accepts is marked valid on blur, unless the pattern throws |
| TextInput.EffectiveColor | src/components/TextInput.tsx:77 | "error" when invalid, the given colour otherwise |
| TextInput.Field.constructor | src/components/TextInput.tsx:50-51 | untouched and valid |
| TextInput.Field.HandleBlur | src/components/TextInput.tsx:53-67 | marks touched and sets validity by `BlurInvalid`; when the pattern throws, `invalid` keeps its value |
| TextInput.Field.HandleChange | src/components/TextInput.tsx:69-75 | once touched, validity follows the browser's verdict; before that it is unchanged |

## Left out

- Rendering, CSS classes, colour and size maps, icons, and the `Pagination` component are not modelled. The untyped table's page is fixed at 1, which is what its use of `Pagination` amounts to.
- Resize listeners and `offsetWidth`: the measured width is a parameter of `HandleResize`. The `tableRef` is taken to be attached.
- JavaScript numbers are modelled as integers. Cells hold integers, `inRange` takes integers, and page arithmetic is exact. Fractional cell values and floating-point rounding are not captured.
- `Cells.ToStr`: `String(n)` switches to exponent form once |n| reaches 1e21 (`"1e+21"`); the model writes every digit, so the search sees all digits of such a value.
- `toLowerCase` is modelled on ASCII only. Unicode case mapping is not.
- Strings are sequences of Unicode scalar values with JavaScript's UTF-16 view computed from them (`Text.Utf16`). A JavaScript string holding a lone surrogate cannot be represented.
- `Object.keys` and `Object.values` are taken in insertion order. The engine's reordering of integer-like keys is not modelled.
- Render functions of typed columns are opaque. A rendered cell is a `Rendered` marker in the row and in the detail panel. The search never sees rendered output, only the row's own values, as in the source.
- `Sorting.Less`: JavaScript `<` between values of different kinds (number against string, boolean against number, null against a number) coerces them. The model treats such pairs as not less.
- `Table1.Compare`: without a null guard JavaScript coerces a null key to 0, so `null < 5` holds and the untyped table sorts null keys like 0. The model treats null and undefined as never less, as the typed table does; `Table1.CompareAgrees` is stated only for keys that are neither.
- `Sorting.SortSorted`, `Table2.SortRowsOrdered` and `Table1.SortRowsOrdered` prove sortedness and stability only when every key of the sort column has one kind. With null, undefined or mixed keys the comparator is inconsistent and ECMAScript only guarantees a permutation (`Sorting.SortPermutation`), which is what is proved there.
- `Table2.CollapsibleTable.TotalPages`, `PaginatedData` and `Footer` are stated through `Paging.TotalPagesBounds`, `Paging.PageInRange`, `Paging.PagesConcatenate` and `Paging.FooterCountsPage`.
- Rows per page are taken to be positive (`Paging.PageSize`). The select offers only positive options, and the default is 5.
- `localStorage`, `document.documentElement` attributes and `typeof window` are not modelled. The saved theme and whether a window exists are parameters, and the writes in the effects are not modelled.
- `isURL`, `isValidDate` and `matchesPattern` are not modelled. They are not used by the rest of the code, and they need the `Date` parser or arbitrary regular expressions.
- `TextInput.BlurInvalid`: a caller-supplied `pattern` is compiled with `new RegExp`, so whether it compiles, and its verdict when it does, is a parameter (`None` for a `SyntaxError`). The same holds for the browser's `validity.valid` in `HandleChange`.
- The `onChange` callback of the text input, React's batching of state updates, and re-renders with new props are not modelled.
- `Select2.Select.HandleSelect` takes the option as given. It is not required to be one of the listed options, matching the handler's signature.

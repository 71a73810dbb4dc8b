/**
 * The set of expanded row ids of both tables and its two updates: toggling one
 * id (`toggleRow`) and the expand-all / collapse-all button (`toggleAllRows`).
 */
module Expansion {
  import opened Cells

  /** `next.has(id) ? next.delete(id) : next.add(id)` on a copy of the set. */
  function Toggle(expanded: set<int>, id: int): (r: set<int>)
    ensures id in r <==> id !in expanded
    ensures forall other :: other != id ==> (other in r <==> other in expanded)
  {
    if id in expanded then expanded - {id} else expanded + {id}
  }

  /** Toggling the same id twice restores the set. */
  lemma ToggleTwice(expanded: set<int>, id: int)
    ensures Toggle(Toggle(expanded, id), id) == expanded
  {
  }

  /** Toggles of two ids commute. */
  lemma ToggleCommutes(expanded: set<int>, a: int, b: int)
    ensures Toggle(Toggle(expanded, a), b) == Toggle(Toggle(expanded, b), a)
  {
  }

  /** `new Set(data.map(r => r.id))`: every id of the whole data set, not only of the current page. */
  function AllIds(data: seq<Row>): (r: set<int>)
    ensures forall i :: 0 <= i < |data| ==> data[i].id in r
    ensures forall id :: id in r ==> exists i :: 0 <= i < |data| && data[i].id == id
  {
    set i | 0 <= i < |data| :: data[i].id
  }

  /** The expand-all button: clear the set when everything is expanded, otherwise fill it. */
  function ToggleAll(allExpanded: bool, data: seq<Row>): (r: set<int>)
    ensures allExpanded ==> r == {}
    ensures !allExpanded ==> r == AllIds(data)
  {
    if allExpanded then {} else AllIds(data)
  }
}

/**
 * The searchable select: options are de-duplicated by value, filtered by the
 * text typed in the input, and picked either one at a time (single mode) or
 * toggled in and out of a selection list (multiple mode).
 */
module Select2 {
  import opened Wrappers
  import Text
  import Seqs

  /** An option: its value and its label (`caption`, since `label` is a Dafny keyword). */
  datatype SelectOption = SelectOption(value: string, caption: string)

  function Values(opts: seq<SelectOption>): (vs: seq<string>)
    ensures |vs| == |opts|
    ensures forall i :: 0 <= i < |opts| ==> vs[i] == opts[i].value
  {
    seq(|opts|, i requires 0 <= i < |opts| => opts[i].value)
  }

  predicate Distinct<T(==)>(s: seq<T>) {
    forall i, j :: 0 <= i < j < |s| ==> s[i] != s[j]
  }

  /** The index of the first option with value `v`. */
  function FirstIndex(opts: seq<SelectOption>, v: string): (r: nat)
    requires v in Values(opts)
    ensures r < |opts| && opts[r].value == v
    ensures forall k :: 0 <= k < r ==> opts[k].value != v
  {
    var init := opts[..|opts| - 1];
    if v in Values(init) then
      var r := FirstIndex(init, v);
      assert opts[r] == init[r];
      r
    else
      assert forall k :: 0 <= k < |opts| - 1 ==> opts[k] == init[k];
      |opts| - 1
  }

  /** The index of the last option with value `v`. */
  function LastIndex(opts: seq<SelectOption>, v: string): (r: nat)
    requires v in Values(opts)
    ensures r < |opts| && opts[r].value == v
    ensures forall k :: r < k < |opts| ==> opts[k].value != v
  {
    var init := opts[..|opts| - 1];
    if opts[|opts| - 1].value == v then |opts| - 1
    else
      assert v in Values(init) by {
        var k :| 0 <= k < |opts| && Values(opts)[k] == v;
        assert Values(init)[k] == v;
      }
      var r := LastIndex(init, v);
      assert opts[r] == init[r];
      r
  }

  /** `map.set(o.value, o)`: overwrite the entry with that value in place, or append. */
  function MapSet(entries: seq<SelectOption>, o: SelectOption): seq<SelectOption> {
    if o.value in Values(entries) then
      seq(|entries|, i requires 0 <= i < |entries| => if entries[i].value == o.value then o else entries[i])
    else entries + [o]
  }

  /** `Array.from(new Map(options.map(o => [o.value, o])).values())`. */
  function Unique(opts: seq<SelectOption>): seq<SelectOption> {
    if opts == [] then [] else MapSet(Unique(opts[..|opts| - 1]), opts[|opts| - 1])
  }

  /** Every entry is the last option given with its value. */
  predicate KeepsLast(u: seq<SelectOption>, opts: seq<SelectOption>) {
    forall i :: 0 <= i < |u| ==> u[i].value in Values(opts) && u[i] == opts[LastIndex(opts, u[i].value)]
  }

  /** Entries appear in the order of their values' first occurrences. */
  predicate FirstOrder(vs: seq<string>, opts: seq<SelectOption>) {
    forall i, j :: 0 <= i < j < |vs| ==>
      vs[i] in Values(opts) && vs[j] in Values(opts) && FirstIndex(opts, vs[i]) < FirstIndex(opts, vs[j])
  }

  /** The de-duplicated options: one entry per distinct value, each entry the last
      option given with its value, entries ordered by first occurrence. */
  lemma UniqueSpec(opts: seq<SelectOption>)
    ensures Distinct(Values(Unique(opts)))
    ensures forall v :: v in Values(Unique(opts)) <==> v in Values(opts)
    ensures KeepsLast(Unique(opts), opts)
    ensures FirstOrder(Values(Unique(opts)), opts)
  {
    UniqueValues(opts);
    UniqueKeepsLast(opts);
    UniqueFirstOrder(opts);
  }

  lemma {:induction false} UniqueValues(opts: seq<SelectOption>)
    ensures Distinct(Values(Unique(opts)))
    ensures forall v :: v in Values(Unique(opts)) <==> v in Values(opts)
  {
    if opts != [] {
      var init, o := opts[..|opts| - 1], opts[|opts| - 1];
      UniqueValues(init);
      assert Values(opts) == Values(init) + [o.value];
      var u := Unique(init);
      if o.value in Values(u) {
        assert Values(MapSet(u, o)) == Values(u);
      } else {
        assert Values(MapSet(u, o)) == Values(u) + [o.value];
      }
    }
  }

  lemma {:induction false} UniqueKeepsLast(opts: seq<SelectOption>)
    ensures KeepsLast(Unique(opts), opts)
  {
    if opts != [] {
      var init, o := opts[..|opts| - 1], opts[|opts| - 1];
      assert opts == init + [o];
      UniqueKeepsLast(init);
      UniqueValues(init);
      var u := Unique(init);
      if o.value in Values(u) {
        ReplacedLast(u, o, init);
      } else {
        NewLast(u, o, init);
      }
    }
  }

  lemma {:induction false} UniqueFirstOrder(opts: seq<SelectOption>)
    ensures FirstOrder(Values(Unique(opts)), opts)
  {
    if opts != [] {
      var init, o := opts[..|opts| - 1], opts[|opts| - 1];
      assert opts == init + [o];
      UniqueFirstOrder(init);
      UniqueValues(init);
      var u := Unique(init);
      if o.value in Values(u) {
        assert Values(MapSet(u, o)) == Values(u);
        PrefixOrder(Values(u), init, o);
      } else {
        assert Values(MapSet(u, o)) == Values(u) + [o.value];
        NewOrder(Values(u), o, init);
      }
    }
  }

  lemma ReplacedLast(u: seq<SelectOption>, o: SelectOption, init: seq<SelectOption>)
    requires o.value in Values(init) && o.value in Values(u) && KeepsLast(u, init)
    ensures KeepsLast(MapSet(u, o), init + [o])
  {
    var opts := init + [o];
    assert Values(opts) == Values(init) + [o.value];
    assert opts[..|opts| - 1] == init;
    var r := MapSet(u, o);
    forall i | 0 <= i < |r| ensures r[i].value in Values(opts) && r[i] == opts[LastIndex(opts, r[i].value)] {
      assert r[i] == if u[i].value == o.value then o else u[i];
      if u[i].value != o.value {
        LastIndexOfPrefix(init, o, u[i].value);
      } else {
        assert o.value in Values(opts) by { assert Values(opts)[|init|] == o.value; }
        assert LastIndex(opts, o.value) == |init|;
      }
    }
  }

  /** Appending an option does not move the first occurrence of earlier values. */
  lemma PrefixOrder(vs: seq<string>, init: seq<SelectOption>, o: SelectOption)
    requires FirstOrder(vs, init)
    ensures FirstOrder(vs, init + [o])
  {
    forall i, j | 0 <= i < j < |vs| ensures
      vs[i] in Values(init + [o]) && vs[j] in Values(init + [o]) &&
      FirstIndex(init + [o], vs[i]) < FirstIndex(init + [o], vs[j])
    {
      PrefixOrderAt(vs, init, o, i, j);
    }
  }

  lemma PrefixOrderAt(vs: seq<string>, init: seq<SelectOption>, o: SelectOption, i: int, j: int)
    requires FirstOrder(vs, init) && 0 <= i < j < |vs|
    ensures vs[i] in Values(init + [o]) && vs[j] in Values(init + [o])
    ensures FirstIndex(init + [o], vs[i]) < FirstIndex(init + [o], vs[j])
  {
    assert vs[i] in Values(init) && vs[j] in Values(init) && FirstIndex(init, vs[i]) < FirstIndex(init, vs[j]);
    FirstIndexOfPrefix(init, o, vs[i]);
    FirstIndexOfPrefix(init, o, vs[j]);
  }

  lemma NewLast(u: seq<SelectOption>, o: SelectOption, init: seq<SelectOption>)
    requires o.value !in Values(init) && o.value !in Values(u)
    requires KeepsLast(u, init)
    ensures KeepsLast(MapSet(u, o), init + [o])
  {
    var r, opts := MapSet(u, o), init + [o];
    assert r == u + [o];
    assert Values(opts) == Values(init) + [o.value];
    forall i | 0 <= i < |r| ensures r[i].value in Values(opts) && r[i] == opts[LastIndex(opts, r[i].value)] {
      if i < |u| {
        assert r[i] == u[i];
        LastIndexOfPrefix(init, o, u[i].value);
      } else {
        assert r[i] == o;
        assert opts[..|opts| - 1] == init;
      }
    }
  }

  lemma NewOrder(vs: seq<string>, o: SelectOption, init: seq<SelectOption>)
    requires o.value !in Values(init)
    requires FirstOrder(vs, init)
    requires forall i :: 0 <= i < |vs| ==> vs[i] in Values(init)
    ensures FirstOrder(vs + [o.value], init + [o])
  {
    var ws, opts := vs + [o.value], init + [o];
    AppendedFirstIndex(init, o);
    PrefixOrder(vs, init, o);
    forall i, j | 0 <= i < j < |ws| ensures
      ws[i] in Values(opts) && ws[j] in Values(opts) && FirstIndex(opts, ws[i]) < FirstIndex(opts, ws[j])
    {
      assert ws[i] == vs[i];
      if j < |vs| {
        assert ws[j] == vs[j];
      } else {
        FirstIndexOfPrefix(init, o, vs[i]);
        FirstIndexBound(init, vs[i]);
      }
    }
  }

  lemma FirstIndexBound(init: seq<SelectOption>, v: string)
    requires v in Values(init)
    ensures FirstIndex(init, v) < |init|
  {
  }

  lemma AppendedFirstIndex(init: seq<SelectOption>, o: SelectOption)
    requires o.value !in Values(init)
    ensures o.value in Values(init + [o]) && FirstIndex(init + [o], o.value) == |init|
  {
    var opts := init + [o];
    assert Values(opts)[|init|] == o.value;
    assert forall k :: 0 <= k < |init| ==> opts[k].value == Values(init)[k];
  }

  lemma FirstIndexOfPrefix(init: seq<SelectOption>, o: SelectOption, v: string)
    requires v in Values(init)
    ensures v in Values(init + [o]) && FirstIndex(init + [o], v) == FirstIndex(init, v)
  {
    var opts := init + [o];
    assert Values(opts) == Values(init) + [o.value];
    assert opts[..|opts| - 1] == init;
  }

  lemma LastIndexOfPrefix(init: seq<SelectOption>, o: SelectOption, v: string)
    requires v in Values(init) && v != o.value
    ensures v in Values(init + [o]) && LastIndex(init + [o], v) == LastIndex(init, v)
  {
    var opts := init + [o];
    assert Values(opts) == Values(init) + [o.value];
    assert opts[..|opts| - 1] == init;
  }

  /** The first option with value `v`: `options.find(o => o.value === v)`. */
  function Find(opts: seq<SelectOption>, v: string): (r: Option<SelectOption>)
    ensures r.None? <==> v !in Values(opts)
    ensures r.Some? ==> v in Values(opts) && r.value == opts[FirstIndex(opts, v)]
  {
    if v in Values(opts) then Some(opts[FirstIndex(opts, v)]) else None
  }

  /** Whether an option's lower-cased label contains the lower-cased input. */
  function LabelMatches(input: string): SelectOption -> bool {
    (o: SelectOption) => Text.Contains(Text.Lower(o.caption), Text.Lower(input))
  }

  /** `filteredOptions`. */
  function FilterOptions(opts: seq<SelectOption>, input: string): (r: seq<SelectOption>)
    ensures Seqs.IsSubseq(r, opts)
    ensures forall o :: o in r <==> o in opts && Text.Contains(Text.Lower(o.caption), Text.Lower(input))
    ensures input == "" ==> r == opts
    ensures forall o :: multiset(r)[o] == if Text.Contains(Text.Lower(o.caption), Text.Lower(input)) then multiset(opts)[o] else 0
  {
    forall o ensures multiset(Seqs.Filter(opts, LabelMatches(input)))[o] == if LabelMatches(input)(o) then multiset(opts)[o] else 0 {
      Seqs.FilterCount(opts, LabelMatches(input), o);
    }
    Seqs.FilterIsSubseq(opts, LabelMatches(input));
    forall o ensures o in Seqs.Filter(opts, LabelMatches(input)) <==> o in opts && LabelMatches(input)(o) {
      Seqs.FilterMembership(opts, LabelMatches(input), o);
    }
    if input == "" then
      forall i | 0 <= i < |opts| ensures LabelMatches(input)(opts[i]) {
        Text.EmptyContained(Text.Lower(opts[i].caption));
      }
      Seqs.FilterAll(opts, LabelMatches(input));
      Seqs.Filter(opts, LabelMatches(input))
    else Seqs.Filter(opts, LabelMatches(input))
  }

  function Without(v: string): string -> bool {
    (w: string) => w != v
  }

  /** The multiple-mode update: drop `v` if it is selected, otherwise append it. */
  function ToggleValue(selected: seq<string>, v: string): (r: seq<string>)
    ensures v in r <==> v !in selected
    ensures forall w :: w != v ==> (w in r <==> w in selected)
    ensures v !in selected ==> r == selected + [v]
    ensures Distinct(selected) ==> Distinct(r)
  {
    forall w ensures w in Seqs.Filter(selected, Without(v)) <==> w in selected && w != v {
      Seqs.FilterMembership(selected, Without(v), w);
    }
    if v in selected then
      Seqs.FilterIsSubseq(selected, Without(v));
      DistinctSubseq(Seqs.Filter(selected, Without(v)), selected);
      Seqs.Filter(selected, Without(v))
    else selected + [v]
  }

  lemma {:induction false} DistinctSubseq<T>(x: seq<T>, y: seq<T>)
    requires Seqs.IsSubseq(x, y)
    ensures Distinct(y) ==> Distinct(x)
    decreases |y|
  {
    if x != [] && y != [] {
      if x[0] == y[0] {
        DistinctSubseq(x[1..], y[1..]);
        if Distinct(y) {
          forall j | 0 < j < |x| ensures x[0] != x[j] {
            assert x[j] in x[1..];
            SubseqMembers(x[1..], y[1..], x[j]);
            var k :| 0 <= k < |y[1..]| && y[1..][k] == x[j];
            assert y[k + 1] == x[j];
          }
        }
      } else {
        DistinctSubseq(x, y[1..]);
      }
    }
  }

  lemma {:induction false} SubseqMembers<T>(x: seq<T>, y: seq<T>, e: T)
    requires Seqs.IsSubseq(x, y) && e in x
    ensures e in y
    decreases |y|
  {
    if y != [] {
      if x[0] == y[0] {
        if e != x[0] {
          assert e in x[1..];
          SubseqMembers(x[1..], y[1..], e);
        }
      } else {
        SubseqMembers(x, y[1..], e);
      }
    }
  }

  /** Selecting an unselected value twice restores the selection. */
  lemma ToggleValueTwice(selected: seq<string>, v: string)
    requires v !in selected
    ensures ToggleValue(ToggleValue(selected, v), v) == selected
  {
    var once := selected + [v];
    var kept := Seqs.Filter(once, Without(v));
    Seqs.FilterAppend(selected, [v], Without(v));
    forall i | 0 <= i < |selected| ensures Without(v)(selected[i]) { }
    Seqs.FilterAll(selected, Without(v));
    assert Seqs.Filter([v], Without(v)) == [];
  }

  /** The input's placeholder: "N selected" in multiple mode with a selection, else the given text. */
  function Placeholder(multiple: bool, selected: seq<string>, placeholder: string): (r: string)
    ensures multiple && |selected| > 0 ==> r == Text.NatToString(|selected|) + " selected"
    ensures !(multiple && |selected| > 0) ==> r == placeholder
  {
    if multiple && |selected| > 0 then Text.IntToString(|selected|) + " selected" else placeholder
  }

  /** The input's shown text: in single mode, unfocused, with a selection, the selected
      option's label (or "" when no option has that value); otherwise what was typed. */
  function Displayed(multiple: bool, isFocused: bool, selected: seq<string>,
                     unique: seq<SelectOption>, input: string): (r: string)
    ensures !multiple && !isFocused && |selected| > 0 && selected[0] in Values(unique) ==>
      r == unique[FirstIndex(unique, selected[0])].caption
    ensures !multiple && !isFocused && |selected| > 0 && selected[0] !in Values(unique) ==> r == ""
    ensures multiple || isFocused || |selected| == 0 ==> r == input
  {
    if !multiple && !isFocused && |selected| > 0 then
      match Find(unique, selected[0])
      case Some(o) => o.caption
      case None => ""
    else input
  }

  class Select {
    const options: seq<SelectOption>
    const multiple: bool
    const placeholder: string

    var inputValue: string
    var selectedValues: seq<string>
    var showOptions: bool
    var isFocused: bool

    /** No value is selected twice, and single mode holds at most one. */
    predicate Valid()
      reads this
    {
      Distinct(selectedValues) && (!multiple ==> |selectedValues| <= 1)
    }

    constructor (options: seq<SelectOption>, multiple: bool, placeholder: string)
      ensures Valid()
      ensures this.options == options && this.multiple == multiple && this.placeholder == placeholder
      ensures inputValue == "" && selectedValues == [] && !showOptions && !isFocused
    {
      this.options := options;
      this.multiple := multiple;
      this.placeholder := placeholder;
      inputValue := "";
      selectedValues := [];
      showOptions := false;
      isFocused := false;
    }

    function UniqueOptions(): seq<SelectOption>
      reads this
    {
      Unique(options)
    }

    function FilteredOptions(): seq<SelectOption>
      reads this
    {
      FilterOptions(Unique(options), inputValue)
    }

    function ShownPlaceholder(): string
      reads this
    {
      Placeholder(multiple, selectedValues, placeholder)
    }

    function ShownValue(): string
      reads this
    {
      Displayed(multiple, isFocused, selectedValues, Unique(options), inputValue)
    }

    /** A click on an option. */
    method HandleSelect(option: SelectOption)
      requires Valid()
      modifies this
      ensures Valid()
      ensures multiple ==> selectedValues == ToggleValue(old(selectedValues), option.value)
                           && inputValue == "" && showOptions == old(showOptions)
      ensures !multiple ==> selectedValues == [option.value] && inputValue == option.caption && !showOptions
      ensures isFocused == old(isFocused)
    {
      if multiple {
        selectedValues := ToggleValue(selectedValues, option.value);
        inputValue := "";
      } else {
        selectedValues := [option.value];
        inputValue := option.caption;
        showOptions := false;
      }
    }

    /** Typing in the input. */
    method HandleChange(text: string)
      requires Valid()
      modifies this
      ensures Valid()
      ensures inputValue == text
      ensures selectedValues == old(selectedValues) && showOptions == old(showOptions) && isFocused == old(isFocused)
    {
      inputValue := text;
    }

    /** Focusing the input opens the list; single mode also clears the input. */
    method HandleFocus()
      requires Valid()
      modifies this
      ensures Valid()
      ensures showOptions && isFocused
      ensures inputValue == if multiple then old(inputValue) else ""
      ensures selectedValues == old(selectedValues)
    {
      showOptions := true;
      isFocused := true;
      if !multiple {
        inputValue := "";
      }
    }

    /** A click outside the component closes the list and, in single mode with a
        selection whose option exists, puts that option's label back in the input. */
    method HandleClickOutside()
      requires Valid()
      modifies this
      ensures Valid()
      ensures !showOptions && !isFocused && selectedValues == old(selectedValues)
      ensures !multiple && |selectedValues| > 0 && selectedValues[0] in Values(Unique(options)) ==>
        inputValue == Unique(options)[FirstIndex(Unique(options), selectedValues[0])].caption
      ensures !(!multiple && |selectedValues| > 0 && selectedValues[0] in Values(Unique(options))) ==>
        inputValue == old(inputValue)
    {
      showOptions := false;
      isFocused := false;
      if !multiple && |selectedValues| > 0 {
        var found := Find(Unique(options), selectedValues[0]);
        if found.Some? {
          inputValue := found.value.caption;
        }
      }
    }
  }
}

/**
 * The state of the search form: the query text, the filters, whether
 * the advanced panel is open and whether the input has focus. Each handler
 * replaces the filters by a pure function of the previous filters (the
 * `setFilters(prev => ...)` updaters), so the updaters are functions and
 * the component is a class whose methods apply them.
 */
module SearchFormState {
  import opened Wrappers
  import opened Cms
  import opened Sequences

  datatype FormSort = Relevance | Date | Popularity

  datatype SearchFilters = SearchFilters(
    category: Option<string>,
    tags: Option<seq<string>>,
    dateRange: Option<DateRange>,
    sortBy: Option<FormSort>)

  /** `{dateRange: 'all', sortBy: 'relevance'}`: both the default initial filters and the cleared ones. */
  const ClearedFilters: SearchFilters := SearchFilters(None, None, Some(All), Some(Relevance))

  /**
   * `tags.filter(t => t !== tag)`: every occurrence of `tag` goes, every
   * other tag stays as often as it was there (and, by
   * WithoutTagIsSubsequence, in its order).
   */
  function WithoutTag(tags: seq<string>, tag: string): (r: seq<string>)
    ensures |r| <= |tags|
    ensures forall t :: t in r <==> t in tags && t != tag
    ensures forall t :: multiset(r)[t] == if t == tag then 0 else multiset(tags)[t]
    decreases |tags|
  {
    if tags == [] then []
    else
      var init, last := tags[..|tags| - 1], tags[|tags| - 1];
      assert tags == init + [last];
      WithoutTag(init, tag) + (if last != tag then [last] else [])
  }

  /** The remaining tags are picked out of the list at increasing positions. */
  lemma {:induction false} WithoutTagIsSubsequence(tags: seq<string>, tag: string) returns (idx: seq<nat>)
    ensures SubsequenceAt(WithoutTag(tags, tag), tags, idx)
    decreases |tags|
  {
    if tags == [] {
      idx := [];
    } else {
      var init, last := tags[..|tags| - 1], tags[|tags| - 1];
      var before := WithoutTagIsSubsequence(init, tag);
      if last != tag {
        SubsequenceSnoc(WithoutTag(init, tag), tags, before);
        idx := before + [|tags| - 1];
      } else {
        SubsequenceExtend(WithoutTag(init, tag), tags, before);
        idx := before;
      }
    }
  }

  /** Removing a tag that is not there changes nothing. */
  lemma {:induction false} WithoutAbsentTag(tags: seq<string>, tag: string)
    requires tag !in tags
    ensures WithoutTag(tags, tag) == tags
    decreases |tags|
  {
    if tags != [] {
      var init := tags[..|tags| - 1];
      assert tags == init + [tags[|tags| - 1]];
      WithoutAbsentTag(init, tag);
    }
  }

  /** The remaining tags keep their order: removing from a concatenation removes from each part. */
  lemma {:induction false} WithoutTagAppend(a: seq<string>, b: seq<string>, tag: string)
    ensures WithoutTag(a + b, tag) == WithoutTag(a, tag) + WithoutTag(b, tag)
    decreases |b|
  {
    if b == [] {
      assert a + b == a;
    } else {
      var init := b[..|b| - 1];
      assert (a + b)[..|a + b| - 1] == a + init;
      WithoutTagAppend(a, init, tag);
    }
  }

  /**
   * `handleTagToggle(tag)`: a tag that is on the list is removed (every
   * occurrence of it), one that is not is appended; nothing else changes.
   */
  function TagToggled(f: SearchFilters, tag: string): (r: SearchFilters)
    ensures r.category == f.category && r.dateRange == f.dateRange && r.sortBy == f.sortBy
    ensures r.tags.Some?
    ensures f.tags.Some? && tag in f.tags.value ==>
      forall t :: t in r.tags.value <==> t in f.tags.value && t != tag
    ensures f.tags.Some? && tag in f.tags.value ==>
      forall t :: multiset(r.tags.value)[t] == if t == tag then 0 else multiset(f.tags.value)[t]
    ensures !(f.tags.Some? && tag in f.tags.value) ==> r.tags.value == f.tags.GetOr([]) + [tag]
  {
    var tags :=
      if f.tags.Some? && tag in f.tags.value then WithoutTag(f.tags.value, tag)
      else f.tags.GetOr([]) + [tag];
    f.(tags := Some(tags))
  }

  /** Removing a selected tag leaves the other selected tags in their order. */
  lemma TagToggledKeepsOrder(f: SearchFilters, tag: string) returns (idx: seq<nat>)
    requires f.tags.Some? && tag in f.tags.value
    ensures SubsequenceAt(TagToggled(f, tag).tags.value, f.tags.value, idx)
  {
    idx := WithoutTagIsSubsequence(f.tags.value, tag);
  }

  /**
   * Toggling a tag that is not selected twice gives back the tag list it
   * started from (an absent list comes back as the empty list).
   */
  lemma ToggleTwiceRestores(f: SearchFilters, tag: string)
    requires !(f.tags.Some? && tag in f.tags.value)
    ensures TagToggled(TagToggled(f, tag), tag) == f.(tags := Some(f.tags.GetOr([])))
  {
    var ts := f.tags.GetOr([]);
    var once := TagToggled(f, tag);
    assert once == f.(tags := Some(ts + [tag]));
    assert tag in ts + [tag];
    WithoutTagAppend(ts, [tag], tag);
    assert WithoutTag([tag], tag) == [] by {
      assert [tag][..0] == [];
    }
    WithoutAbsentTag(ts, tag);
    assert WithoutTag(ts + [tag], tag) == ts + [] == ts;
    assert TagToggled(once, tag) == once.(tags := Some(WithoutTag(ts + [tag], tag)));
  }

  /** `handleCategorySelect(category)`: selecting the selected category clears it. */
  function CategorySelected(f: SearchFilters, category: string): (r: SearchFilters)
    ensures r.tags == f.tags && r.dateRange == f.dateRange && r.sortBy == f.sortBy
    ensures r.category == None <==> f.category == Some(category)
    ensures f.category != Some(category) ==> r.category == Some(category)
  {
    f.(category := if f.category == Some(category) then None else Some(category))
  }

  /** Selecting the same category twice is a no-op when none or that one was selected. */
  lemma SelectTwiceRestores(f: SearchFilters, category: string)
    requires f.category.None? || f.category == Some(category)
    ensures CategorySelected(CategorySelected(f, category), category) == f
  {
  }

  /**
   * `hasActiveFilters`: a non-empty category, a non-empty tag list, a
   * date range other than `all` or an order other than `relevance`; an
   * absent date range or order counts as active.
   */
  predicate HasActiveFilters(f: SearchFilters) {
    (f.category.Some? && f.category.value != [])
    || (f.tags.Some? && |f.tags.value| > 0)
    || f.dateRange != Some(All)
    || f.sortBy != Some(Relevance)
  }

  /** Cleared filters are inactive, and so are the defaults the form starts with. */
  lemma ClearedIsInactive()
    ensures !HasActiveFilters(ClearedFilters)
    ensures ClearedFilters.category.None? && ClearedFilters.tags.None?
  {
  }

  /**
   * Selecting a category that is not already selected, or adding a tag,
   * always leaves an active filter behind.
   */
  lemma SelectionActivatesFilters(f: SearchFilters, category: string, tag: string)
    ensures category != [] && f.category != Some(category) ==> HasActiveFilters(CategorySelected(f, category))
    ensures !(f.tags.Some? && tag in f.tags.value) ==> HasActiveFilters(TagToggled(f, tag))
  {
  }

  /** A hidden form field; an absent value is submitted without one. */
  datatype HiddenInput = HiddenInput(name: string, value: Option<string>)

  function DateRangeName(d: DateRange): string {
    match d
    case Today => "today"
    case Week => "week"
    case Month => "month"
    case Year => "year"
    case All => "all"
  }

  function FormSortName(s: FormSort): string {
    match s
    case Relevance => "relevance"
    case Date => "date"
    case Popularity => "popularity"
  }

  /** One `tags` input per tag, in order. */
  function TagInputs(tags: seq<string>): (r: seq<HiddenInput>)
    ensures |r| == |tags|
    ensures forall i :: 0 <= i < |tags| ==> r[i] == HiddenInput("tags", Some(tags[i]))
  {
    seq(|tags|, i requires 0 <= i < |tags| => HiddenInput("tags", Some(tags[i])))
  }

  function CategoryInput(f: SearchFilters): seq<HiddenInput> {
    if f.category.Some? && f.category.value != [] then [HiddenInput("category", f.category)] else []
  }

  function DateRangeInput(f: SearchFilters): seq<HiddenInput> {
    if f.dateRange == Some(All) then []
    else [HiddenInput("dateRange", match f.dateRange case Some(d) => Some(DateRangeName(d)) case None => None)]
  }

  function SortByInput(f: SearchFilters): seq<HiddenInput> {
    if f.sortBy == Some(Relevance) then []
    else [HiddenInput("sortBy", match f.sortBy case Some(s) => Some(FormSortName(s)) case None => None)]
  }

  /** The hidden inputs the form submits for the filters, in the order they are rendered. */
  function HiddenInputsOf(f: SearchFilters): (hs: seq<HiddenInput>)
    ensures |hs| <= 3 + |f.tags.GetOr([])|
    ensures |hs| >= |f.tags.GetOr([])|
  {
    CategoryInput(f) + TagInputs(f.tags.GetOr([])) + DateRangeInput(f) + SortByInput(f)
  }

  /** Whether some input of `hs` is named `name`. */
  predicate HasInput(hs: seq<HiddenInput>, name: string) {
    exists h :: h in hs && h.name == name
  }

  lemma HasInputAppend(a: seq<HiddenInput>, b: seq<HiddenInput>, name: string)
    ensures HasInput(a + b, name) <==> HasInput(a, name) || HasInput(b, name)
  {
    if HasInput(a + b, name) {
      var h :| h in a + b && h.name == name;
      assert h in a || h in b;
    }
    if HasInput(a, name) {
      var h :| h in a && h.name == name;
      assert h in a + b;
    }
    if HasInput(b, name) {
      var h :| h in b && h.name == name;
      assert h in a + b;
    }
  }

  /**
   * A category field only for a non-empty category, a date-range field
   * only for a range other than `all`, an order field only for an order
   * other than `relevance`.
   */
  lemma HiddenInputNames(f: SearchFilters)
    ensures HasInput(HiddenInputsOf(f), "category") <==> f.category.Some? && f.category.value != []
    ensures HasInput(HiddenInputsOf(f), "dateRange") <==> f.dateRange != Some(All)
    ensures HasInput(HiddenInputsOf(f), "sortBy") <==> f.sortBy != Some(Relevance)
    ensures !HasInput(HiddenInputsOf(f), "tags") <==> f.tags.GetOr([]) == []
  {
    InputsByPart(f, "category");
    InputsByPart(f, "dateRange");
    InputsByPart(f, "sortBy");
    InputsByPart(f, "tags");
  }

  /** A name occurs among the hidden inputs exactly when the part rendering that name emits a field. */
  lemma InputsByPart(f: SearchFilters, name: string)
    ensures HasInput(HiddenInputsOf(f), name) <==>
      || (name == "category" && CategoryInput(f) != [])
      || (name == "tags" && f.tags.GetOr([]) != [])
      || (name == "dateRange" && DateRangeInput(f) != [])
      || (name == "sortBy" && SortByInput(f) != [])
  {
    var c, t, d, s := CategoryInput(f), TagInputs(f.tags.GetOr([])), DateRangeInput(f), SortByInput(f);
    HasInputAppend(c, t, name);
    HasInputAppend(c + t, d, name);
    HasInputAppend(c + t + d, s, name);
    assert forall h :: h in t ==> h.name == "tags";
    assert t != [] ==> t[0] in t;
    assert c != [] ==> c[0] in c;
    assert d != [] ==> d[0] in d;
    assert s != [] ==> s[0] in s;
  }

  /** There is no hidden field at all exactly when no filter is active. */
  lemma HiddenInputsEmptyIffInactive(f: SearchFilters)
    ensures HiddenInputsOf(f) == [] <==> !HasActiveFilters(f)
  {
  }

  /** Exactly one `tags` field per selected tag, in order. */
  lemma HiddenTagValues(f: SearchFilters)
    ensures TagValues(HiddenInputsOf(f)) == f.tags.GetOr([])
  {
    var c, t, d, s := CategoryInput(f), TagInputs(f.tags.GetOr([])), DateRangeInput(f), SortByInput(f);
    OtherInputsHaveNoTags(f);
    TagValuesOfInputs(f.tags.GetOr([]));
    TagValuesAppend(c, t);
    assert TagValues(c + t) == f.tags.GetOr([]);
    TagValuesAppend(c + t, d);
    assert TagValues(c + t + d) == f.tags.GetOr([]);
    TagValuesAppend(c + t + d, s);
  }

  /** A single field with another name contributes no tag value. */
  lemma SingleNoTag(h: HiddenInput)
    requires h.name != "tags"
    ensures TagValues([h]) == []
  {
    assert [h][..0] == [];
  }

  /** The category, date-range and order fields carry no tag value. */
  lemma OtherInputsHaveNoTags(f: SearchFilters)
    ensures TagValues(CategoryInput(f)) == []
    ensures TagValues(DateRangeInput(f)) == []
    ensures TagValues(SortByInput(f)) == []
  {
    var c, d, s := CategoryInput(f), DateRangeInput(f), SortByInput(f);
    if c != [] {
      assert c[0].name[0] == 'c';
      SingleNoTag(c[0]);
      assert c == [c[0]];
    }
    if d != [] {
      assert d[0].name[0] == 'd';
      SingleNoTag(d[0]);
      assert d == [d[0]];
    }
    if s != [] {
      assert s[0].name[0] == 's';
      SingleNoTag(s[0]);
      assert s == [s[0]];
    }
  }

  /** The values of the `tags` fields, in order. */
  function TagValues(hs: seq<HiddenInput>): seq<string>
    decreases |hs|
  {
    if hs == [] then []
    else
      var h := hs[|hs| - 1];
      TagValues(hs[..|hs| - 1]) + (if h.name == "tags" && h.value.Some? then [h.value.value] else [])
  }

  lemma {:induction false} TagValuesAppend(a: seq<HiddenInput>, b: seq<HiddenInput>)
    ensures TagValues(a + b) == TagValues(a) + TagValues(b)
    decreases |b|
  {
    if b == [] {
      assert a + b == a;
    } else {
      assert (a + b)[..|a + b| - 1] == a + b[..|b| - 1];
      TagValuesAppend(a, b[..|b| - 1]);
    }
  }

  lemma {:induction false} TagValuesOfInputs(tags: seq<string>)
    ensures TagValues(TagInputs(tags)) == tags
    decreases |tags|
  {
    if tags != [] {
      var init := tags[..|tags| - 1];
      TagValuesOfInputs(init);
      assert TagInputs(tags)[..|tags| - 1] == TagInputs(init);
    }
  }

  /** The search form component's state. */
  class SearchForm {
    var query: string
    var filters: SearchFilters
    var showAdvanced: bool
    var isFocused: bool

    /** `useState(initialQuery)`, `useState(initialFilters)`, both flags `false`. */
    constructor(initialQuery: string, initialFilters: SearchFilters)
      ensures query == initialQuery && filters == initialFilters
      ensures !showAdvanced && !isFocused
    {
      query := initialQuery;
      filters := initialFilters;
      showAdvanced := false;
      isFocused := false;
    }

    /** `hasActiveFilters` for the current filters. */
    predicate FiltersActive()
      reads this
    {
      HasActiveFilters(filters)
    }

    /** The hidden inputs rendered for the current filters. */
    function HiddenInputs(): seq<HiddenInput>
      reads this
    {
      HiddenInputsOf(filters)
    }

    /** `handleQuickSearch` (and typing into the input): the query becomes `searchQuery`. */
    method HandleQuickSearch(searchQuery: string)
      modifies this
      ensures query == searchQuery
      ensures filters == old(filters) && showAdvanced == old(showAdvanced) && isFocused == old(isFocused)
    {
      query := searchQuery;
    }

    /** `clearFilters`: the filters become the cleared filters; nothing else changes. */
    method ClearFilters()
      modifies this
      ensures filters == ClearedFilters && !FiltersActive()
      ensures query == old(query) && showAdvanced == old(showAdvanced) && isFocused == old(isFocused)
    {
      filters := ClearedFilters;
      ClearedIsInactive();
    }

    /** `clearQuery`: empties the query and drops the focus, leaving the filters alone. */
    method ClearQuery()
      modifies this
      ensures query == [] && !isFocused
      ensures filters == old(filters) && showAdvanced == old(showAdvanced)
    {
      query := "";
      isFocused := false;
    }

    method HandleCategorySelect(category: string)
      modifies this
      ensures filters == CategorySelected(old(filters), category)
      ensures query == old(query) && showAdvanced == old(showAdvanced) && isFocused == old(isFocused)
    {
      filters := CategorySelected(filters, category);
    }

    method HandleTagToggle(tag: string)
      modifies this
      ensures filters == TagToggled(old(filters), tag)
      ensures query == old(query) && showAdvanced == old(showAdvanced) && isFocused == old(isFocused)
    {
      filters := TagToggled(filters, tag);
    }

    /** A date-range button: sets the range, keeps the rest of the filters. */
    method SetDateRange(range: DateRange)
      modifies this
      ensures filters == old(filters).(dateRange := Some(range))
      ensures query == old(query) && showAdvanced == old(showAdvanced) && isFocused == old(isFocused)
    {
      filters := filters.(dateRange := Some(range));
    }

    /** An order button: sets the order, keeps the rest of the filters. */
    method SetSortBy(sortBy: FormSort)
      modifies this
      ensures filters == old(filters).(sortBy := Some(sortBy))
      ensures query == old(query) && showAdvanced == old(showAdvanced) && isFocused == old(isFocused)
    {
      filters := filters.(sortBy := Some(sortBy));
    }

    /** The close button on the category badge: the category is dropped. */
    method RemoveCategory()
      modifies this
      ensures filters == old(filters).(category := None)
      ensures query == old(query) && showAdvanced == old(showAdvanced) && isFocused == old(isFocused)
    {
      filters := filters.(category := None);
    }

    /** The advanced-filter button: opens or closes the panel. */
    method ToggleAdvanced()
      modifies this
      ensures showAdvanced == !old(showAdvanced)
      ensures query == old(query) && filters == old(filters) && isFocused == old(isFocused)
    {
      showAdvanced := !showAdvanced;
    }

    /** Focusing the input. */
    method Focus()
      modifies this
      ensures isFocused
      ensures query == old(query) && filters == old(filters) && showAdvanced == old(showAdvanced)
    {
      isFocused := true;
    }
  }
}

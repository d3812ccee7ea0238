/** The filter panel (`EventFilterComponent`): which options it offers,
    whether any filter is active, and the one-field patches it emits for the
    store to merge. */
module EventFilter {
  import opened Wrappers
  import opened EventModel
  import EventStore

  /** One entry of a drop-down; `caption` is the source's `label`. */
  datatype FilterOption<T> = FilterOption(value: T, caption: string)

  function OptionValues<T>(opts: seq<FilterOption<T>>): (r: seq<T>)
    ensures |r| == |opts|
    ensures forall k :: 0 <= k < |opts| ==> r[k] == opts[k].value
  {
    seq(|opts|, k requires 0 <= k < |opts| => opts[k].value)
  }

  /** Every value of the type appears in `values`, and none appears twice. */
  ghost predicate EachExactlyOnce<T(!new)>(values: seq<T>) {
    && (forall x: T :: x in values)
    && (forall i, j :: 0 <= i < j < |values| ==> values[i] != values[j])
  }

  lemma AllStatusesListed()
    ensures EachExactlyOnce([Draft, Published, Cancelled])
  {
    var values := [Draft, Published, Cancelled];
    forall x: Status ensures x in values {
      match x
      case Draft => assert values[0] == x;
      case Published => assert values[1] == x;
      case Cancelled => assert values[2] == x;
    }
  }

  lemma AllCategoriesListed()
    ensures EachExactlyOnce([Concert, Opera, Theater, Exhibition])
  {
    var values := [Concert, Opera, Theater, Exhibition];
    forall x: Category ensures x in values {
      match x
      case Concert => assert values[0] == x;
      case Opera => assert values[1] == x;
      case Theater => assert values[2] == x;
      case Exhibition => assert values[3] == x;
    }
  }

  /** `statusOptions`: every status exactly once, each with its label. */
  function StatusOptions(): (opts: seq<FilterOption<Status>>)
    ensures EachExactlyOnce(OptionValues(opts))
    ensures forall k :: 0 <= k < |opts| ==> opts[k].caption == StatusLabel(opts[k].value)
  {
    var opts := [
      FilterOption(Draft, StatusLabel(Draft)),
      FilterOption(Published, StatusLabel(Published)),
      FilterOption(Cancelled, StatusLabel(Cancelled))];
    assert OptionValues(opts) == [Draft, Published, Cancelled];
    AllStatusesListed();
    opts
  }

  /** `categoryOptions`: every category exactly once, each with its label. */
  function CategoryOptions(): (opts: seq<FilterOption<Category>>)
    ensures EachExactlyOnce(OptionValues(opts))
    ensures forall k :: 0 <= k < |opts| ==> opts[k].caption == CategoryLabel(opts[k].value)
  {
    var opts := [
      FilterOption(Concert, CategoryLabel(Concert)),
      FilterOption(Opera, CategoryLabel(Opera)),
      FilterOption(Theater, CategoryLabel(Theater)),
      FilterOption(Exhibition, CategoryLabel(Exhibition))];
    assert OptionValues(opts) == [Concert, Opera, Theater, Exhibition];
    AllCategoriesListed();
    opts
  }

  /** `hasActiveFilters`: false exactly for the default filters. */
  function HasActiveFilters(f: Filters): (b: bool)
    ensures !b <==> f == DefaultFilters
  {
    f.status != AllStatuses || f.category != AllCategories || f.searchTerm != ""
  }

  const NoFilterChange := FiltersPatch(None, None, None)

  function OnSearchChange(term: string): FiltersPatch {
    NoFilterChange.(searchTerm := Some(term))
  }

  function OnStatusChange(status: StatusChoice): FiltersPatch {
    NoFilterChange.(status := Some(status))
  }

  function OnCategoryChange(category: CategoryChoice): FiltersPatch {
    NoFilterChange.(category := Some(category))
  }

  function ClearStatus(): FiltersPatch {
    OnStatusChange(AllStatuses)
  }

  function ClearCategory(): FiltersPatch {
    OnCategoryChange(AllCategories)
  }

  function ClearSearch(): FiltersPatch {
    OnSearchChange("")
  }

  /** Each change handler's patch, merged by the store, sets its own field and
      leaves the other two alone. */
  lemma ChangePatchesTouchOneField(f: Filters, term: string, s: StatusChoice, c: CategoryChoice)
    ensures EventStore.MergeFilters(f, OnSearchChange(term)) == f.(searchTerm := term)
    ensures EventStore.MergeFilters(f, OnStatusChange(s)) == f.(status := s)
    ensures EventStore.MergeFilters(f, OnCategoryChange(c)) == f.(category := c)
  {
  }

  /** Each clear handler's patch resets its own field to the default value. */
  lemma ClearPatchesRestoreDefault(f: Filters)
    ensures EventStore.MergeFilters(f, ClearStatus()).status == DefaultFilters.status
    ensures EventStore.MergeFilters(f, ClearCategory()).category == DefaultFilters.category
    ensures EventStore.MergeFilters(f, ClearSearch()).searchTerm == DefaultFilters.searchTerm
  {
  }

  /** Clearing all three fields, in any state, leaves no active filter. */
  lemma ClearAllDeactivates(s: EventStore.State)
    ensures var r := EventStore.UpdateFilters(EventStore.UpdateFilters(EventStore.UpdateFilters(
                       s, ClearStatus()), ClearCategory()), ClearSearch());
            !HasActiveFilters(r.filters) && r.filters == DefaultFilters
  {
  }
}

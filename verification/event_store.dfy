/** The store (`EventStore`): one state record, the `patchState` merge, the
    derived views (selected event, filtered list, status counts) and the
    action reducers. Each asynchronous action is split into the state change
    made before the repository call and the one made when it answers; the
    whole action composes them with the repository call over `App`. */
module EventStore {
  import opened Wrappers
  import opened EventModel
  import opened Text
  import Seqs
  import EventApi

  datatype State = State(
    events: seq<Event>,
    filters: Filters,
    selectedEventId: Option<string>,
    loading: bool,
    error: Option<string>)

  const InitialState := State([], DefaultFilters, None, false, None)

  /** `Partial<EventState>`. The nullable fields take `Option<Option<_>>`:
      the outer level says whether the key is present, the inner one is the
      nullable value. */
  datatype StatePatch = StatePatch(
    events: Option<seq<Event>>,
    filters: Option<Filters>,
    selectedEventId: Option<Option<string>>,
    loading: Option<bool>,
    error: Option<Option<string>>)

  const NoChange := StatePatch(None, None, None, None, None)

  /** `{ ...state, ...patch }`: each field present in the patch is replaced,
      each absent one is kept. */
  function PatchState(s: State, p: StatePatch): (r: State)
    ensures p.events.Some? ==> r.events == p.events.value
    ensures p.events.None? ==> r.events == s.events
    ensures p.filters.Some? ==> r.filters == p.filters.value
    ensures p.filters.None? ==> r.filters == s.filters
    ensures p.selectedEventId.Some? ==> r.selectedEventId == p.selectedEventId.value
    ensures p.selectedEventId.None? ==> r.selectedEventId == s.selectedEventId
    ensures p.loading.Some? ==> r.loading == p.loading.value
    ensures p.loading.None? ==> r.loading == s.loading
    ensures p.error.Some? ==> r.error == p.error.value
    ensures p.error.None? ==> r.error == s.error
  {
    State(
      p.events.GetOr(s.events),
      p.filters.GetOr(s.filters),
      p.selectedEventId.GetOr(s.selectedEventId),
      p.loading.GetOr(s.loading),
      p.error.GetOr(s.error))
  }

  /** `{ ...p, ...q }` on patches. */
  function ThenPatch(p: StatePatch, q: StatePatch): StatePatch {
    StatePatch(
      if q.events.Some? then q.events else p.events,
      if q.filters.Some? then q.filters else p.filters,
      if q.selectedEventId.Some? then q.selectedEventId else p.selectedEventId,
      if q.loading.Some? then q.loading else p.loading,
      if q.error.Some? then q.error else p.error)
  }

  /** Two successive patches act as their combination, the later one winning. */
  lemma PatchStateCompose(s: State, p: StatePatch, q: StatePatch)
    ensures PatchState(PatchState(s, p), q) == PatchState(s, ThenPatch(p, q))
  {
  }

  /** The empty patch changes nothing; any patch applied twice acts once. */
  lemma PatchStateIdentityAndIdempotent(s: State, p: StatePatch)
    ensures PatchState(s, NoChange) == s
    ensures PatchState(PatchState(s, p), p) == PatchState(s, p)
  {
  }

  /** `{ ...currentFilters, ...filters }`. */
  function MergeFilters(f: Filters, p: FiltersPatch): (r: Filters)
    ensures p.status.Some? ==> r.status == p.status.value
    ensures p.status.None? ==> r.status == f.status
    ensures p.category.Some? ==> r.category == p.category.value
    ensures p.category.None? ==> r.category == f.category
    ensures p.searchTerm.Some? ==> r.searchTerm == p.searchTerm.value
    ensures p.searchTerm.None? ==> r.searchTerm == f.searchTerm
  {
    Filters(p.status.GetOr(f.status), p.category.GetOr(f.category), p.searchTerm.GetOr(f.searchTerm))
  }

  // ---------------------------------------------------------------------------
  // Derived views
  // ---------------------------------------------------------------------------

  /** `selectedEvent$`: the first event whose id is the selected one; none when
      nothing is selected or no event carries that id. */
  function SelectedEvent(s: State): (r: Option<Event>)
    ensures r.Some? <==> s.selectedEventId.Some? && HasId(s.events, s.selectedEventId.value)
    ensures r.Some? ==> exists i :: IsFirstWithId(s.events, s.selectedEventId.value, i) && r.value == s.events[i]
  {
    match s.selectedEventId
    case None => None
    case Some(id) => Find(s.events, id)
  }

  /** The status test of `applyFilters`. */
  predicate StatusPasses(e: Event, c: StatusChoice) {
    c.AllStatuses? || e.status == c.status
  }

  /** The category test of `applyFilters`. */
  predicate CategoryPasses(e: Event, c: CategoryChoice) {
    c.AllCategories? || e.category == c.category
  }

  /** The search test of `applyFilters`: an empty term passes everything,
      otherwise the lower-cased term must occur in the lower-cased title,
      description or venue. */
  predicate SearchPasses(e: Event, term: string) {
    if term == "" then true
    else
      var t := Lower(term);
      Includes(Lower(e.title), t) || Includes(Lower(e.description), t) || Includes(Lower(e.venue), t)
  }

  predicate Matches(e: Event, f: Filters) {
    StatusPasses(e, f.status) && CategoryPasses(e, f.category) && SearchPasses(e, f.searchTerm)
  }

  /** The predicate handed to `events.filter` in `applyFilters`. */
  function Keep(f: Filters): Event -> bool {
    (e: Event) => Matches(e, f)
  }

  function ApplyFilters(events: seq<Event>, f: Filters): seq<Event> {
    Seqs.Filter(events, Keep(f))
  }

  /** `filteredEvents$`: never longer than the store's events, and every event
      in it matches the current filters. */
  function FilteredEvents(s: State): (r: seq<Event>)
    ensures |r| <= |s.events|
    ensures forall k :: 0 <= k < |r| ==> Matches(r[k], s.filters)
  {
    ApplyFilters(s.events, s.filters)
  }

  /** The search test is case-insensitive substring search on title, description
      or venue, stated with positions instead of `includes`. */
  lemma SearchPassesIff(e: Event, term: string)
    ensures SearchPasses(e, term) <==>
      || term == ""
      || Occurs(Lower(e.title), Lower(term))
      || Occurs(Lower(e.description), Lower(term))
      || Occurs(Lower(e.venue), Lower(term))
  {
    IncludesIffOccurs(Lower(e.title), Lower(term));
    IncludesIffOccurs(Lower(e.description), Lower(term));
    IncludesIffOccurs(Lower(e.venue), Lower(term));
  }

  /** With the default filters every event is shown, in its order. */
  lemma ApplyDefaultFilters(events: seq<Event>)
    ensures ApplyFilters(events, DefaultFilters) == events
  {
    Seqs.FilterKeepsAll(events, Keep(DefaultFilters));
  }

  /** The filtered list is the subsequence of the events that pass all three
      tests: kept events pass them, dropped events fail one, order is kept. */
  lemma ApplyFiltersSelects(events: seq<Event>, f: Filters) returns (idx: seq<int>)
    ensures Seqs.SelectsAt(ApplyFilters(events, f), events, idx)
    ensures forall i :: 0 <= i < |events| ==>
      (i in idx <==> StatusPasses(events[i], f.status)
                     && CategoryPasses(events[i], f.category)
                     && SearchPasses(events[i], f.searchTerm))
  {
    idx := Seqs.FilterSelects(events, Keep(f));
  }

  /** Filtering the filtered list with the same criteria changes nothing. */
  lemma ApplyFiltersIdempotent(events: seq<Event>, f: Filters)
    ensures ApplyFilters(ApplyFilters(events, f), f) == ApplyFilters(events, f)
  {
    Seqs.FilterIdempotent(events, Keep(f));
  }

  /** A lower-cased string without the letter j, in either case, does not contain "jazz". */
  lemma NoJazzWithoutJ(s: string)
    requires forall k :: 0 <= k < |s| ==> s[k] != 'j' && s[k] != 'J'
    ensures !Includes(Lower(s), "jazz")
  {
    IncludesIffOccurs(Lower(s), "jazz");
    forall i ensures !OccursAt(Lower(s), "jazz", i) {
      if 0 <= i < |s| {
        assert Lower(s)[i] == LowerChar(s[i]) != 'j';
      }
    }
  }

  /** A term found only in the venue still matches: "jazz" finds an event held
      at "Jazz Bar" whose title and description do not mention it. */
  lemma VenueOnlyMatch(e: Event)
    requires e.title == "Night Session" && e.description == "Live quartet"
    requires e.venue == "Jazz Bar"
    ensures !Includes(Lower(e.title), "jazz") && !Includes(Lower(e.description), "jazz")
    ensures SearchPasses(e, "jazz")
  {
    NoJazzWithoutJ(e.title);
    NoJazzWithoutJ(e.description);
    JazzIsLower();
    JazzBarHasJazz(e.venue);
  }

  lemma JazzIsLower()
    ensures Lower("jazz") == "jazz"
  {
    var l := Lower("jazz");
    assert l[0] == 'j' && l[1] == 'a' && l[2] == 'z' && l[3] == 'z';
  }

  lemma JazzBarHasJazz(v: string)
    requires v == "Jazz Bar"
    ensures Includes(Lower(v), "jazz")
  {
    var l := Lower(v);
    assert l[0] == 'j' && l[1] == 'a' && l[2] == 'z' && l[3] == 'z';
    assert l[..4] == "jazz";
  }

  /** `eventCounts$`. */
  datatype Counts = Counts(total: nat, published: nat, draft: nat, cancelled: nat)

  function HasStatus(st: Status): Event -> bool {
    (e: Event) => e.status == st
  }

  function CountStatus(events: seq<Event>, st: Status): nat {
    |Seqs.Filter(events, HasStatus(st))|
  }

  /** Every event has exactly one status, so the three counts add up. */
  lemma {:induction false} StatusCountsPartition(events: seq<Event>)
    ensures CountStatus(events, Published) + CountStatus(events, Draft) + CountStatus(events, Cancelled) == |events|
    decreases |events|
  {
    if |events| > 0 {
      StatusCountsPartition(events[1..]);
    }
  }

  /** Each count is the number of positions holding that status; the three
      status counts add up to the total. */
  function EventCounts(events: seq<Event>): (c: Counts)
    ensures c.total == |events|
    ensures c.published == |Seqs.PositionsWhere(events, HasStatus(Published))|
    ensures c.draft == |Seqs.PositionsWhere(events, HasStatus(Draft))|
    ensures c.cancelled == |Seqs.PositionsWhere(events, HasStatus(Cancelled))|
    ensures c.published + c.draft + c.cancelled == c.total
  {
    Seqs.FilterCount(events, HasStatus(Published));
    Seqs.FilterCount(events, HasStatus(Draft));
    Seqs.FilterCount(events, HasStatus(Cancelled));
    StatusCountsPartition(events);
    Counts(|events|, CountStatus(events, Published), CountStatus(events, Draft), CountStatus(events, Cancelled))
  }

  /** Three events with statuses draft, published, cancelled count as one each. */
  lemma CountsOfThree(a: Event, b: Event, c: Event)
    requires a.status == Draft && b.status == Published && c.status == Cancelled
    ensures EventCounts([a, b, c]) == Counts(3, 1, 1, 1)
  {
    var s := [a, b, c];
    assert Seqs.PositionsWhere(s, HasStatus(Published)) == {1};
    assert Seqs.PositionsWhere(s, HasStatus(Draft)) == {0};
    assert Seqs.PositionsWhere(s, HasStatus(Cancelled)) == {2};
  }

  // ---------------------------------------------------------------------------
  // Reducers: the state change each action makes
  // ---------------------------------------------------------------------------

  /** `loadEvents`, before the call: loading on, error cleared. */
  function LoadStarted(s: State): (r: State)
    ensures r == s.(loading := true, error := None)
  {
    PatchState(s, NoChange.(loading := Some(true), error := Some(None)))
  }

  /** `loadEvents`, on success: the events are replaced and loading is off. */
  function LoadSucceeded(s: State, events: seq<Event>): (r: State)
    ensures r == s.(events := events, loading := false)
  {
    PatchState(s, NoChange.(events := Some(events), loading := Some(false)))
  }

  /** Every action's error branch: loading off, the message recorded, the
      events left as they were. */
  function RequestFailed(s: State, message: string): (r: State)
    ensures r == s.(loading := false, error := Some(message))
  {
    PatchState(s, NoChange.(loading := Some(false), error := Some(Some(message))))
  }

  function SelectEvent(s: State, id: Option<string>): (r: State)
    ensures r == s.(selectedEventId := id)
  {
    PatchState(s, NoChange.(selectedEventId := Some(id)))
  }

  /** `updateFilters`: the filters take the patched fields, nothing else changes. */
  function UpdateFilters(s: State, p: FiltersPatch): (r: State)
    ensures r == s.(filters := MergeFilters(s.filters, p))
  {
    PatchState(s, NoChange.(filters := Some(MergeFilters(s.filters, p))))
  }

  function ResetFilters(s: State): (r: State)
    ensures r == s.(filters := DefaultFilters)
  {
    PatchState(s, NoChange.(filters := Some(DefaultFilters)))
  }

  /** `createEvent` / `updateEvent` / `deleteEvent`, before the call. The error
      is not cleared. */
  function MutationStarted(s: State): (r: State)
    ensures r == s.(loading := true)
  {
    PatchState(s, NoChange.(loading := Some(true)))
  }

  /** `createEvent` on success: the new event is appended at the end. */
  function CreateSucceeded(s: State, created: Event): (r: State)
    ensures r == s.(events := s.events + [created], loading := false)
  {
    PatchState(s, NoChange.(events := Some(s.events + [created]), loading := Some(false)))
  }

  /** `updateEvent` on success: the first local event carrying `id` is replaced
      and loading goes off. When no local event carries `id` the state is left
      exactly as it was, so `loading` stays on. */
  function UpdateSucceeded(s: State, id: string, updated: Event): (r: State)
    ensures !HasId(s.events, id) ==> r == s
    ensures HasId(s.events, id) ==>
      exists i :: IsFirstWithId(s.events, id, i) && r == s.(events := s.events[i := updated], loading := false)
  {
    match FindIndex(s.events, id)
    case None => s
    case Some(i) => PatchState(s, NoChange.(events := Some(s.events[i := updated]), loading := Some(false)))
  }

  /** `deleteEvent` on success: every event carrying `id` goes, loading goes off,
      and the selection is cleared exactly when it was `id`. */
  function DeleteSucceeded(s: State, id: string): (r: State)
    ensures r.events == WithoutId(s.events, id) && !r.loading
    ensures r.filters == s.filters && r.error == s.error
    ensures r.selectedEventId.None? <==> s.selectedEventId.None? || s.selectedEventId == Some(id)
    ensures r.selectedEventId.Some? ==> r.selectedEventId == s.selectedEventId
  {
    PatchState(s, NoChange.(
      events := Some(WithoutId(s.events, id)),
      loading := Some(false),
      selectedEventId := Some(if s.selectedEventId == Some(id) then None else s.selectedEventId)))
  }

  // ---------------------------------------------------------------------------
  // Whole actions: store and repository together
  // ---------------------------------------------------------------------------

  /** The store's state and the repository's collection. */
  datatype App = App(store: State, repo: seq<Event>)

  /** The store's copy of the events is the repository's collection. */
  predicate InSync(a: App) {
    a.store.events == a.repo
  }

  /** `loadEvents`: the repository's collection becomes the store's events. */
  function LoadEvents(a: App): (r: App)
    ensures r.repo == a.repo
    ensures r.store == a.store.(events := a.repo, loading := false, error := None)
    ensures InSync(r)
  {
    App(LoadSucceeded(LoadStarted(a.store), EventApi.GetAll(a.repo)), a.repo)
  }

  /** From the initial state, the first load mirrors the repository, ends
      without loading or error, and the default filters show every event in
      the repository's order. */
  lemma FirstLoadShowsAll(seed: seq<Event>)
    ensures var a := LoadEvents(App(InitialState, seed));
            && InSync(a)
            && FilteredEvents(a.store) == seed
            && !a.store.loading && a.store.error.None?
            && a.store.selectedEventId.None? && a.store.filters == DefaultFilters
  {
    ApplyDefaultFilters(seed);
  }

  /** `createEvent`: both the repository and the store append the created event. */
  function CreateEvent(a: App, draft: EventDraft, id: string, createdAt: Millis, updatedAt: Millis): (r: App)
    ensures |r.repo| == |a.repo| + 1 && r.repo[..|a.repo|] == a.repo
    ensures r.store == a.store.(events := a.store.events + [r.repo[|a.repo|]], loading := false)
    ensures EventApi.DraftOf(r.repo[|a.repo|]) == draft && r.repo[|a.repo|].id == id
    ensures InSync(a) ==> InSync(r)
  {
    var reply := EventApi.Create(a.repo, draft, id, createdAt, updatedAt);
    App(CreateSucceeded(MutationStarted(a.store), reply.response.value), reply.events)
  }

  /** `updateEvent` as the store runs it against the repository. */
  function UpdateEvent(a: App, id: string, patch: EventPatch, now: Millis): (r: App)
    ensures !HasId(a.repo, id) ==>
      && r.repo == a.repo
      && r.store == a.store.(loading := false, error := Some(EventApi.ErrorMessage(EventApi.NotFound(id))))
    ensures HasId(a.repo, id) && !HasId(a.store.events, id) ==>
      && r.store == a.store.(loading := true)
      && exists i :: IsFirstWithId(a.repo, id, i) && r.repo == a.repo[i := EventApi.Merge(a.repo[i], patch).(updatedAt := now)]
    ensures HasId(a.repo, id) && HasId(a.store.events, id) ==>
      exists i, j :: && IsFirstWithId(a.repo, id, i) && IsFirstWithId(a.store.events, id, j)
                     && var v := EventApi.Merge(a.repo[i], patch).(updatedAt := now);
                     && r.repo == a.repo[i := v]
                     && r.store == a.store.(events := a.store.events[j := v], loading := false)
  {
    var started := MutationStarted(a.store);
    var reply := EventApi.Update(a.repo, id, patch, now);
    match reply.response
    case Success(updated) => App(UpdateSucceeded(started, id, updated), reply.events)
    case Failure(e) => App(RequestFailed(started, EventApi.ErrorMessage(e)), reply.events)
  }

  /** `deleteEvent` as the store runs it against the repository. */
  function DeleteEvent(a: App, id: string): (r: App)
    ensures !HasId(a.repo, id) ==>
      && r.repo == a.repo
      && r.store == a.store.(loading := false, error := Some(EventApi.ErrorMessage(EventApi.NotFound(id))))
    ensures HasId(a.repo, id) ==> r.repo == WithoutId(a.repo, id) && r.store == DeleteSucceeded(a.store, id)
  {
    var started := MutationStarted(a.store);
    var reply := EventApi.Delete(a.repo, id);
    match reply.response
    case Success(_) => App(DeleteSucceeded(started, id), reply.events)
    case Failure(e) => App(RequestFailed(started, EventApi.ErrorMessage(e)), reply.events)
  }

  /** The status the toggle asks for: published becomes draft, anything else
      (cancelled included) becomes published. */
  function Toggled(st: Status): (r: Status)
    ensures r == Draft <==> st == Published
    ensures r != Cancelled
  {
    if st == Published then Draft else Published
  }

  /** `toggleEventStatus`: nothing happens when no local event carries `id`;
      otherwise an update carrying only the toggled status is issued. */
  function ToggleEventStatus(a: App, id: string, now: Millis): (r: App)
    ensures !HasId(a.store.events, id) ==> r == a
  {
    match Find(a.store.events, id)
    case None => a
    case Some(e) => UpdateEvent(a, id, EmptyPatch.(status := Some(Toggled(e.status))), now)
  }

  // ---------------------------------------------------------------------------
  // Properties of the whole actions
  // ---------------------------------------------------------------------------

  /** While the store mirrors the repository, a successful update replaces the
      same position in both, and the mirror is kept. */
  lemma UpdateKeepsSync(a: App, id: string, patch: EventPatch, now: Millis)
    requires InSync(a)
    ensures InSync(UpdateEvent(a, id, patch, now))
    ensures HasId(a.repo, id) ==> !UpdateEvent(a, id, patch, now).store.loading
  {
  }

  /** Deleting keeps the mirror. */
  lemma DeleteKeepsSync(a: App, id: string)
    requires InSync(a)
    ensures InSync(DeleteEvent(a, id))
  {
  }

  /** Toggling, in sync, replaces the first event carrying `id` by the same event
      with the toggled status and the new stamp, and keeps every other event. */
  lemma ToggleEffect(a: App, id: string, now: Millis) returns (i: nat)
    requires InSync(a) && HasId(a.store.events, id)
    ensures IsFirstWithId(a.store.events, id, i)
    ensures var r := ToggleEventStatus(a, id, now);
            && InSync(r)
            && r.store.events == a.store.events[i := a.store.events[i].(status := Toggled(a.store.events[i].status), updatedAt := now)]
  {
    i := FindIndex(a.store.events, id).value;
  }

  /** Toggling a cancelled event publishes it. */
  lemma ToggleCancelledPublishes(a: App, id: string, now: Millis)
    requires InSync(a)
    requires Find(a.store.events, id).Some? && Find(a.store.events, id).value.status == Cancelled
    ensures var r := ToggleEventStatus(a, id, now);
            Find(r.store.events, id).Some? && Find(r.store.events, id).value.status == Published
  {
    var i := ToggleEffect(a, id, now);
    var r := ToggleEventStatus(a, id, now);
    assert IsFirstWithId(r.store.events, id, i);
  }
}

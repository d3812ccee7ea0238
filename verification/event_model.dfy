/** The record types of the application: a cultural event, its status and
    category, the list filters, and lookups by id shared by the repository
    and the store. */
module EventModel {
  import opened Wrappers
  import Seqs

  /** Milliseconds since the Unix epoch, as `Date.getTime()` reports them. */
  type Millis = int

  /** A status is exactly one of these three. */
  datatype Status = Draft | Published | Cancelled

  /** A category is exactly one of these four. */
  datatype Category = Concert | Opera | Theater | Exhibition

  /** One cultural event. `imageUrl` is the only optional field. */
  datatype Event = Event(
    id: string,
    title: string,
    description: string,
    status: Status,
    category: Category,
    venue: string,
    date: Millis,
    ticketPrice: real,
    availableSeats: int,
    imageUrl: Option<string>,
    createdAt: Millis,
    updatedAt: Millis)

  /** The fields a caller hands to `create`: an event without id and timestamps. */
  datatype EventDraft = EventDraft(
    title: string,
    description: string,
    status: Status,
    category: Category,
    venue: string,
    date: Millis,
    ticketPrice: real,
    availableSeats: int,
    imageUrl: Option<string>)

  /** A partial event: every field present in the patch overrides the record's. */
  datatype EventPatch = EventPatch(
    id: Option<string>,
    title: Option<string>,
    description: Option<string>,
    status: Option<Status>,
    category: Option<Category>,
    venue: Option<string>,
    date: Option<Millis>,
    ticketPrice: Option<real>,
    availableSeats: Option<int>,
    imageUrl: Option<string>,
    createdAt: Option<Millis>,
    updatedAt: Option<Millis>)

  const EmptyPatch := EventPatch(None, None, None, None, None, None, None, None, None, None, None, None)

  /** A filter's status is a concrete status or the wildcard `all`. */
  datatype StatusChoice = AllStatuses | OnlyStatus(status: Status)

  /** A filter's category is a concrete category or the wildcard `all`. */
  datatype CategoryChoice = AllCategories | OnlyCategory(category: Category)

  datatype Filters = Filters(status: StatusChoice, category: CategoryChoice, searchTerm: string)

  /** A partial filter, as the filter panel emits it. */
  datatype FiltersPatch = FiltersPatch(
    status: Option<StatusChoice>,
    category: Option<CategoryChoice>,
    searchTerm: Option<string>)

  const DefaultFilters := Filters(AllStatuses, AllCategories, "")

  function CategoryLabel(c: Category): string {
    match c
    case Concert => "Concert"
    case Opera => "Opera"
    case Theater => "Theater"
    case Exhibition => "Exhibition"
  }

  function StatusLabel(s: Status): string {
    match s
    case Draft => "Draft"
    case Published => "Published"
    case Cancelled => "Cancelled"
  }

  /** No two categories share a label. */
  lemma CategoryLabelsDistinct(c: Category, d: Category)
    ensures CategoryLabel(c) == CategoryLabel(d) ==> c == d
  {
  }

  /** No two statuses share a label. */
  lemma StatusLabelsDistinct(s: Status, t: Status)
    ensures StatusLabel(s) == StatusLabel(t) ==> s == t
  {
  }

  // ---------------------------------------------------------------------------
  // Lookups by id (`Array.prototype.find` / `findIndex` on `e.id === id`)
  // ---------------------------------------------------------------------------

  predicate HasId(events: seq<Event>, id: string) {
    exists i :: 0 <= i < |events| && events[i].id == id
  }

  /** `i` is the first position whose event has `id`. */
  ghost predicate IsFirstWithId(events: seq<Event>, id: string, i: int) {
    && 0 <= i < |events|
    && events[i].id == id
    && forall j :: 0 <= j < i ==> events[j].id != id
  }

  /** `findIndex`: the first position carrying `id`, or None for -1. */
  function FindIndex(events: seq<Event>, id: string): (r: Option<nat>)
    ensures r.None? <==> !HasId(events, id)
    ensures r.Some? ==> IsFirstWithId(events, id, r.value)
    decreases |events|
  {
    if |events| == 0 then None
    else if events[0].id == id then Some(0)
    else
      match FindIndex(events[1..], id)
      case None =>
        assert forall i :: 1 <= i < |events| ==> events[i] == events[1..][i - 1];
        None
      case Some(i) => Some(i + 1)
  }

  /** `find`: the first event carrying `id`, or None for `undefined`. */
  function Find(events: seq<Event>, id: string): (r: Option<Event>)
    ensures r.None? <==> !HasId(events, id)
    ensures r.Some? ==> exists i :: IsFirstWithId(events, id, i) && r.value == events[i]
  {
    match FindIndex(events, id)
    case None => None
    case Some(i) => Some(events[i])
  }

  /** The keep-test of `events.filter((e) => e.id !== id)`. */
  function NotId(id: string): Event -> bool {
    (e: Event) => e.id != id
  }

  /** Every event except those carrying `id`, in their original order. */
  function WithoutId(events: seq<Event>, id: string): seq<Event> {
    Seqs.Filter(events, NotId(id))
  }

  /** Removing an id leaves no event with it, keeps exactly the events with
      another id in their original order, and shrinks the list when the id was there. */
  lemma WithoutIdSpec(events: seq<Event>, id: string) returns (idx: seq<int>)
    ensures !HasId(WithoutId(events, id), id)
    ensures Seqs.SelectsAt(WithoutId(events, id), events, idx)
    ensures forall i :: 0 <= i < |events| ==> (events[i].id != id <==> i in idx)
    ensures HasId(events, id) ==> |WithoutId(events, id)| < |events|
  {
    idx := Seqs.FilterSelects(events, NotId(id));
    var r := WithoutId(events, id);
    assert forall k :: 0 <= k < |r| ==> NotId(id)(r[k]);
    if HasId(events, id) {
      var i :| 0 <= i < |events| && events[i].id == id;
      Seqs.FilterShrinks(events, NotId(id), i);
    }
  }
}

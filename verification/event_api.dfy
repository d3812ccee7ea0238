/** The mock repository (`EventApiService`): create, read, update and delete
    over an in-memory sequence of events. The id source and the clock are
    parameters; storage and the simulated delay are not modelled. */
module EventApi {
  import opened Wrappers
  import opened EventModel

  datatype ApiError = NotFound(id: string)

  /** The `message` of the error the service throws. */
  function ErrorMessage(e: ApiError): string {
    "Event with id " + e.id + " not found"
  }

  /** A repository call's outcome: the collection after the call, and what
      the returned observable emits (a value or an error). */
  datatype Reply<T> = Reply(events: seq<Event>, response: Result<T, ApiError>)

  /** All ids in the collection are pairwise distinct. */
  ghost predicate UniqueIds(events: seq<Event>) {
    forall i, j :: 0 <= i < j < |events| ==> events[i].id != events[j].id
  }

  /** `getAll`: a copy of the current collection. */
  function GetAll(events: seq<Event>): seq<Event> {
    events
  }

  /** `getById` fails with NotFound exactly when no event has `id`; otherwise
      it emits the first event carrying it. */
  function GetById(events: seq<Event>, id: string): (r: Result<Event, ApiError>)
    ensures r.Failure? <==> !HasId(events, id)
    ensures r.Failure? ==> r.error == NotFound(id)
    ensures r.Success? ==> exists i :: IsFirstWithId(events, id, i) && r.value == events[i]
  {
    match Find(events, id)
    case None => Failure(NotFound(id))
    case Some(e) => Success(e)
  }

  /** `{ ...event, id, createdAt, updatedAt }`. */
  function WithIdentity(d: EventDraft, id: string, createdAt: Millis, updatedAt: Millis): Event {
    Event(id, d.title, d.description, d.status, d.category, d.venue, d.date, d.ticketPrice,
          d.availableSeats, d.imageUrl, createdAt, updatedAt)
  }

  /** The caller-supplied part of an event (`Omit<CulturalEvent, 'id' | 'createdAt' | 'updatedAt'>`). */
  function DraftOf(e: Event): EventDraft {
    EventDraft(e.title, e.description, e.status, e.category, e.venue, e.date, e.ticketPrice,
               e.availableSeats, e.imageUrl)
  }

  /** `create`: appends one new event built from the draft, the supplied id and
      two separate clock readings for `createdAt` and `updatedAt`. Never fails. */
  function Create(events: seq<Event>, draft: EventDraft, id: string, createdAt: Millis, updatedAt: Millis)
    : (r: Reply<Event>)
    ensures r.response.Success?
    ensures |r.events| == |events| + 1
    ensures r.events[..|events|] == events
    ensures r.events[|events|] == r.response.value
    ensures DraftOf(r.response.value) == draft
    ensures r.response.value.id == id
    ensures r.response.value.createdAt == createdAt && r.response.value.updatedAt == updatedAt
  {
    var created := WithIdentity(draft, id, createdAt, updatedAt);
    Reply(events + [created], Success(created))
  }

  /** `{ ...event, ...updates }`: every field present in the patch wins. */
  function Merge(e: Event, p: EventPatch): Event {
    Event(
      p.id.GetOr(e.id),
      p.title.GetOr(e.title),
      p.description.GetOr(e.description),
      p.status.GetOr(e.status),
      p.category.GetOr(e.category),
      p.venue.GetOr(e.venue),
      p.date.GetOr(e.date),
      p.ticketPrice.GetOr(e.ticketPrice),
      p.availableSeats.GetOr(e.availableSeats),
      if p.imageUrl.Some? then p.imageUrl else e.imageUrl,
      p.createdAt.GetOr(e.createdAt),
      p.updatedAt.GetOr(e.updatedAt))
  }

  /** `update`: fails with NotFound, leaving the collection as it was, when no
      event has `id`. Otherwise it replaces the first event carrying `id` by that
      event merged with the patch and stamped with `now`, keeping the length and
      every other position. The patch may overwrite `id` and `createdAt`; only
      `updatedAt` is forced. */
  function Update(events: seq<Event>, id: string, patch: EventPatch, now: Millis): (r: Reply<Event>)
    ensures r.response.Failure? <==> !HasId(events, id)
    ensures r.response.Failure? ==> r.events == events && r.response.error == NotFound(id)
    ensures r.response.Success? ==>
      && |r.events| == |events|
      && exists i :: IsFirstWithId(events, id, i)
                     && r.events == events[i := r.response.value]
                     && r.response.value == Merge(events[i], patch).(updatedAt := now)
  {
    match FindIndex(events, id)
    case None => Reply(events, Failure(NotFound(id)))
    case Some(i) =>
      var updated := Merge(events[i], patch).(updatedAt := now);
      var next := events[..i] + [updated] + events[i + 1..];
      assert next == events[i := updated];
      Reply(next, Success(updated))
  }

  /** `delete`: fails with NotFound, leaving the collection as it was, when no
      event has `id`; otherwise removes every event carrying `id`. */
  function Delete(events: seq<Event>, id: string): (r: Reply<()>)
    ensures r.response.Failure? <==> !HasId(events, id)
    ensures r.response.Failure? ==> r.events == events && r.response.error == NotFound(id)
    ensures r.response.Success? ==> r.events == WithoutId(events, id)
  {
    match FindIndex(events, id)
    case None => Reply(events, Failure(NotFound(id)))
    case Some(_) => Reply(WithoutId(events, id), Success(()))
  }

  // ---------------------------------------------------------------------------
  // Properties relating several calls
  // ---------------------------------------------------------------------------

  /** The draft round-trips through the record `create` builds. */
  lemma DraftRoundTrip(d: EventDraft, id: string, createdAt: Millis, updatedAt: Millis)
    ensures DraftOf(WithIdentity(d, id, createdAt, updatedAt)) == d
  {
  }

  /** Creating with an id not yet in use keeps ids unique. */
  lemma CreateKeepsIdsUnique(events: seq<Event>, draft: EventDraft, id: string, createdAt: Millis, updatedAt: Millis)
    requires UniqueIds(events)
    requires !HasId(events, id)
    ensures UniqueIds(Create(events, draft, id, createdAt, updatedAt).events)
  {
    var r := Create(events, draft, id, createdAt, updatedAt).events;
    forall i, j | 0 <= i < j < |r| ensures r[i].id != r[j].id {
      if j < |events| {
        assert r[i] == events[i] && r[j] == events[j];
      } else {
        assert r[i] == events[i];
      }
    }
  }

  /** After creating an event with a fresh id, `getById` of that id emits it. */
  lemma CreateThenGetById(events: seq<Event>, draft: EventDraft, id: string, createdAt: Millis, updatedAt: Millis)
    requires !HasId(events, id)
    ensures var r := Create(events, draft, id, createdAt, updatedAt);
            GetById(r.events, id) == Success(r.response.value)
  {
    var r := Create(events, draft, id, createdAt, updatedAt);
    assert forall j :: 0 <= j < |events| ==> r.events[j] == events[j] && r.events[j].id != id;
    assert IsFirstWithId(r.events, id, |events|);
  }

  /** An update may rewrite the identity fields: a patch carrying `id` and
      `createdAt` changes both, unlike `updatedAt` which is always `now`. */
  lemma UpdateMayRewriteIdentity(events: seq<Event>, id: string, newId: string, created: Millis, now: Millis)
    requires HasId(events, id)
    ensures var r := Update(events, id, EmptyPatch.(id := Some(newId), createdAt := Some(created), updatedAt := Some(now - 1)), now);
            && r.response.Success?
            && r.response.value.id == newId
            && r.response.value.createdAt == created
            && r.response.value.updatedAt == now
  {
  }

  /** Deleting removes every event with `id`, keeps the others in their order,
      and shortens the collection. */
  lemma DeleteRemovesId(events: seq<Event>, id: string) returns (idx: seq<int>)
    requires HasId(events, id)
    ensures var r := Delete(events, id);
            && r.response.Success?
            && !HasId(r.events, id)
            && |r.events| < |events|
            && Seqs.SelectsAt(r.events, events, idx)
            && (forall i :: 0 <= i < |events| ==> (events[i].id != id <==> i in idx))
  {
    idx := WithoutIdSpec(events, id);
  }
}

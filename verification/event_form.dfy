/** The create/edit form (`EventFormComponent`): its controls and declared
    validators, how an event is copied into it, and what a submit sends to the
    store. The time zone and `Date.now()` are parameters. */
module EventForm {
  import opened Wrappers
  import opened EventModel
  import EventApi
  import EventStore


  // ---------------------------------------------------------------------------
  // The date control
  // ---------------------------------------------------------------------------

  /** The value of the `datetime-local` control: empty, or a wall-clock time to
      the minute (`YYYY-MM-DDTHH:mm`), written here as the number of whole
      minutes since 1970-01-01T00:00 on that wall clock. */
  datatype DateText = NoDate | WallMinute(minutes: int)

  /** `new Date(event.date).toISOString().slice(0, 16)`: the UTC wall clock,
      cut down to the minute (also before 1970, where it rounds to the earlier
      minute). */
  function FormatDate(date: Millis): (t: DateText)
    ensures t.WallMinute?
    ensures t.minutes * 60000 <= date < t.minutes * 60000 + 60000
  {
    WallMinute(date / 60000)
  }

  /** `new Date(text)` on a date-time text without an offset, which reads it as
      LOCAL time: `offset(m)` is how many milliseconds the local zone is ahead
      of UTC at the local wall-clock minute `m`. */
  function ParseLocal(t: DateText, offset: int -> int): (d: Millis)
    requires t.WallMinute?
    ensures d + offset(t.minutes) == t.minutes * 60000
  {
    t.minutes * 60000 - offset(t.minutes)
  }

  /** Formatting an event's date and parsing it back does not give the date: the
      seconds and milliseconds are dropped and the local zone's offset is
      subtracted. The date survives exactly when the offset at that minute
      cancels the dropped part, in particular in UTC on a whole minute. */
  lemma DateRoundTrip(date: Millis, offset: int -> int)
    ensures ParseLocal(FormatDate(date), offset) == date - date % 60000 - offset(date / 60000)
    ensures ParseLocal(FormatDate(date), offset) == date <==> offset(date / 60000) == -(date % 60000)
  {
  }

  /** 17:30:45 UTC on 1970-01-01, edited in a zone two hours ahead of UTC, is
      sent back as 15:30 UTC. */
  lemma DateShiftTwoHoursAhead(offset: int -> int)
    requires forall m :: offset(m) == 7200000
    ensures ParseLocal(FormatDate(63045000), offset) == 55800000
  {
    DateRoundTrip(63045000, offset);
  }

  // ---------------------------------------------------------------------------
  // Controls and validators
  // ---------------------------------------------------------------------------

  /** The controls' values. A cleared select is None; a cleared number input
      is None (`null`). */
  datatype FormValue = FormValue(
    title: string,
    description: string,
    category: Option<Category>,
    status: Option<Status>,
    venue: string,
    date: DateText,
    ticketPrice: Option<real>,
    availableSeats: Option<int>,
    imageUrl: string)

  /** The values `initForm` starts with. */
  const InitialValue := FormValue("", "", None, Some(Draft), "", NoDate, Some(0.0), Some(0), "")

  // Angular's validators, each of which lets an empty value through except `required`.

  predicate Required<T>(v: Option<T>) {
    v.Some?
  }

  predicate RequiredText(s: string) {
    s != ""
  }

  predicate MinLength(s: string, n: nat) {
    s == "" || |s| >= n
  }

  predicate MinReal(v: Option<real>, m: real) {
    v.None? || v.value >= m
  }

  predicate MinInt(v: Option<int>, m: int) {
    v.None? || v.value >= m
  }

  /** The form is valid when every declared validator passes; that is, when the
      title has at least 3 characters, the description at least 10, category,
      status, venue and date are filled in, and price and seats are present and
      not negative. */
  function FormValid(v: FormValue): (valid: bool)
    ensures valid <==>
      && |v.title| >= 3
      && |v.description| >= 10
      && v.category.Some?
      && v.status.Some?
      && v.venue != ""
      && v.date.WallMinute?
      && v.ticketPrice.Some? && v.ticketPrice.value >= 0.0
      && v.availableSeats.Some? && v.availableSeats.value >= 0
  {
    && RequiredText(v.title) && MinLength(v.title, 3)
    && RequiredText(v.description) && MinLength(v.description, 10)
    && Required(v.category)
    && Required(v.status)
    && RequiredText(v.venue)
    && v.date != NoDate
    && Required(v.ticketPrice) && MinReal(v.ticketPrice, 0.0)
    && Required(v.availableSeats) && MinInt(v.availableSeats, 0)
  }

  /** A fresh form is invalid until it is filled in. */
  lemma InitialFormInvalid()
    ensures !FormValid(InitialValue)
  {
  }

  // ---------------------------------------------------------------------------
  // Loading an event into the form
  // ---------------------------------------------------------------------------

  datatype FormState = FormState(
    value: FormValue,
    isEditMode: bool,
    eventId: Option<string>,
    submitting: bool,
    loading: bool)

  /** The route id, when it is a non-empty string (the source tests it for truthiness). */
  predicate HasRouteId(id: Option<string>) {
    id.Some? && id.value != ""
  }

  /** `event.imageUrl || ''`. */
  function ImageText(url: Option<string>): string {
    if url.Some? then url.value else ""
  }

  /** `patchForm`: every field of the event is copied into its control; the
      date becomes its UTC minute, and a missing image URL the empty string. */
  function PatchForm(ev: Event): (v: FormValue)
    ensures v.title == ev.title && v.description == ev.description && v.venue == ev.venue
    ensures v.category == Some(ev.category) && v.status == Some(ev.status)
    ensures v.ticketPrice == Some(ev.ticketPrice) && v.availableSeats == Some(ev.availableSeats)
    ensures v.date.WallMinute? && v.date.minutes * 60000 <= ev.date < v.date.minutes * 60000 + 60000
    ensures ev.imageUrl.None? ==> v.imageUrl == ""
    ensures ev.imageUrl.Some? ==> v.imageUrl == ev.imageUrl.value
  {
    FormValue(ev.title, ev.description, Some(ev.category), Some(ev.status), ev.venue, FormatDate(ev.date),
              Some(ev.ticketPrice), Some(ev.availableSeats), ImageText(ev.imageUrl))
  }

  /** The fields of an event that the form's validators look at are acceptable. */
  predicate EditableAsIs(ev: Event) {
    && |ev.title| >= 3
    && |ev.description| >= 10
    && ev.venue != ""
    && ev.ticketPrice >= 0.0
    && ev.availableSeats >= 0
  }

  /** A loaded event gives a valid form exactly when its own fields pass the
      validators; category, status and date are always filled in. */
  lemma PatchFormValidIff(ev: Event)
    ensures FormValid(PatchForm(ev)) <==> EditableAsIs(ev)
  {
  }

  /** What any change of the store's state does to the form. The edit page
      subscribes to `selectedEvent$` and never unsubscribes, and
      `selectedEvent$` emits on every `patchState`; so in edit mode each store
      change refills the controls with the selected event, discarding what the
      user typed, and ends loading (the callback at lines 414-419 acts only
      once the selected event is known), while a create form is not subscribed
      and is left alone. */
  function OnStoreChange(fs: FormState, s: EventStore.State): (r: FormState)
    ensures !fs.isEditMode || EventStore.SelectedEvent(s).None? ==> r == fs
    ensures fs.isEditMode && EventStore.SelectedEvent(s).Some? ==>
      && r.value == PatchForm(EventStore.SelectedEvent(s).value)
      && !r.loading
      && r == fs.(value := r.value, loading := false)
  {
    match EventStore.SelectedEvent(s)
    case Some(e) => if fs.isEditMode then fs.(value := PatchForm(e), loading := false) else fs
    case None => fs
  }

  /** `combineLatest` emits more than once for one state change; a second
      emission of the same state changes nothing more. */
  lemma OnStoreChangeIdempotent(fs: FormState, s: EventStore.State)
    ensures OnStoreChange(OnStoreChange(fs, s), s) == OnStoreChange(fs, s)
  {
  }

  /** `ngOnInit`: a fresh form, in edit mode exactly when the route carries an
      id. In edit mode `loadEvent` selects that event in the store and
      subscribes, and the subscription answers at once: when the store holds
      the event the form leaves `ngOnInit` filled in with it and not loading;
      when it does not, the form stays at its initial values and keeps
      loading. Without an id the store is left alone. */
  function OnInit(s: EventStore.State, routeId: Option<string>): (r: (FormState, EventStore.State))
    ensures r.0.eventId == routeId && !r.0.submitting
    ensures r.0.isEditMode <==> HasRouteId(routeId)
    ensures HasRouteId(routeId) ==> r.1 == s.(selectedEventId := routeId)
    ensures !HasRouteId(routeId) ==> r.1 == s
    ensures HasRouteId(routeId) && Find(s.events, routeId.value).Some? ==>
      r.0.value == PatchForm(Find(s.events, routeId.value).value) && !r.0.loading
    ensures HasRouteId(routeId) && Find(s.events, routeId.value).None? ==>
      r.0.value == InitialValue && r.0.loading
    ensures !HasRouteId(routeId) ==> r.0.value == InitialValue && !r.0.loading
  {
    var edit := HasRouteId(routeId);
    var s' := if edit then EventStore.SelectEvent(s, routeId) else s;
    (OnStoreChange(FormState(InitialValue, edit, routeId, false, edit), s'), s')
  }

  // ---------------------------------------------------------------------------
  // Submitting
  // ---------------------------------------------------------------------------

  function DigitChar(d: nat): (c: char)
    requires d < 10
    ensures '0' <= c <= '9' && c as int - '0' as int == d
  {
    "0123456789"[d]
  }

  predicate AllDigits(s: string) {
    forall k :: 0 <= k < |s| ==> '0' <= s[k] <= '9'
  }

  /** The number a string of decimal digits spells, most significant first. */
  function DigitsValue(s: string): nat
    requires AllDigits(s)
  {
    if s == [] then 0
    else DigitsValue(s[..|s| - 1]) * 10 + (s[|s| - 1] as int - '0' as int)
  }

  /** `String(n)` for a natural number: its decimal digits, most significant
      first, spelling `n`, without a leading zero. */
  function Decimal(n: nat): (r: string)
    ensures |r| >= 1 && AllDigits(r)
    ensures DigitsValue(r) == n
    ensures r[0] == '0' ==> r == "0"
    decreases n
  {
    if n < 10 then [DigitChar(n)]
    else
      var front := Decimal(n / 10);
      var r := front + [DigitChar(n % 10)];
      assert r[..|r| - 1] == front;
      r
  }

  /** The placeholder image for a form without an image URL, seeded by the clock. */
  function Placeholder(now: nat): string {
    "https://picsum.photos/seed/" + Decimal(now) + "/400/300"
  }

  /** `formValue.imageUrl || placeholder`. */
  function ImageOrPlaceholder(url: string, now: nat): string {
    if url != "" then url else Placeholder(now)
  }

  /** The submitted event data: the form's values with the date read as local
      time and the image URL or placeholder. */
  function Payload(v: FormValue, offset: int -> int, now: nat): (d: EventDraft)
    requires FormValid(v)
  {
    EventDraft(v.title, v.description, v.status.value, v.category.value, v.venue, ParseLocal(v.date, offset),
               v.ticketPrice.value, v.availableSeats.value, Some(ImageOrPlaceholder(v.imageUrl, now)))
  }

  /** The same data as a partial event for `updateEvent`; id and timestamps
      are not part of it. */
  function PatchOf(d: EventDraft): (p: EventPatch) {
    EventPatch(None, Some(d.title), Some(d.description), Some(d.status), Some(d.category), Some(d.venue),
               Some(d.date), Some(d.ticketPrice), Some(d.availableSeats), d.imageUrl, None, None)
  }

  /** What a submit asks the store to do. */
  datatype Command = NoCommand | CreateCommand(draft: EventDraft) | UpdateCommand(id: string, patch: EventPatch)

  /** The state right after `onSubmit` returns: the form, the store, and the
      request under way. */
  datatype Submitted = Submitted(form: FormState, store: EventStore.State, command: Command)

  /** `onSubmit`: an invalid form does nothing. A valid one starts submitting and
      dispatches an update of the routed event in edit mode, a create otherwise.
      Either carries every control's value, the date read as local time, and the
      image URL when filled in, else the placeholder; an update carries no id and
      no timestamps. Both store actions turn `loading` on before they return,
      and in edit mode that store change refills the controls with the stored
      event, after the payload was taken from them. */
  function OnSubmit(fs: FormState, s: EventStore.State, offset: int -> int, now: nat): (r: Submitted)
    ensures !FormValid(fs.value) ==> r == Submitted(fs, s, NoCommand)
    ensures FormValid(fs.value) ==> r.store == s.(loading := true) && !r.command.NoCommand?
    ensures FormValid(fs.value) && (!fs.isEditMode || EventStore.SelectedEvent(s).None?) ==>
      r.form == fs.(submitting := true)
    ensures FormValid(fs.value) && fs.isEditMode && EventStore.SelectedEvent(s).Some? ==>
      r.form == fs.(submitting := true, value := PatchForm(EventStore.SelectedEvent(s).value), loading := false)
    ensures r.command.UpdateCommand? <==> FormValid(fs.value) && fs.isEditMode && HasRouteId(fs.eventId)
    ensures r.command.UpdateCommand? ==> Some(r.command.id) == fs.eventId
    ensures r.command.CreateCommand? ==>
      var d, v := r.command.draft, fs.value;
      && d.title == v.title && d.description == v.description
      && Some(d.status) == v.status && Some(d.category) == v.category
      && d.venue == v.venue
      && v.date.WallMinute? && d.date == ParseLocal(v.date, offset)
      && Some(d.ticketPrice) == v.ticketPrice && Some(d.availableSeats) == v.availableSeats
      && (v.imageUrl != "" ==> d.imageUrl == Some(v.imageUrl))
      && (v.imageUrl == "" ==> d.imageUrl == Some(Placeholder(now)))
    ensures r.command.UpdateCommand? ==>
      var p, v := r.command.patch, fs.value;
      && p.id.None? && p.createdAt.None? && p.updatedAt.None?
      && p.title == Some(v.title) && p.description == Some(v.description)
      && p.status == v.status && p.category == v.category
      && p.venue == Some(v.venue)
      && v.date.WallMinute? && p.date == Some(ParseLocal(v.date, offset))
      && p.ticketPrice == v.ticketPrice && p.availableSeats == v.availableSeats
      && (v.imageUrl != "" ==> p.imageUrl == Some(v.imageUrl))
      && (v.imageUrl == "" ==> p.imageUrl == Some(Placeholder(now)))
  {
    if !FormValid(fs.value) then Submitted(fs, s, NoCommand)
    else
      var data := Payload(fs.value, offset, now);
      var command :=
        if fs.isEditMode && HasRouteId(fs.eventId) then UpdateCommand(fs.eventId.value, PatchOf(data))
        else CreateCommand(data);
      var started := EventStore.MutationStarted(s);
      Submitted(OnStoreChange(fs.(submitting := true), started), started, command)
  }

  /** The error callback of either dispatch. The store has already recorded the
      error (`s` is its state after that), which in edit mode refills the
      controls; then submitting is enabled again. */
  function SubmitFailed(fs: FormState, s: EventStore.State): (r: FormState)
    ensures !r.submitting
    ensures r.isEditMode == fs.isEditMode && r.eventId == fs.eventId
    ensures !fs.isEditMode ==> r == fs.(submitting := false)
  {
    OnStoreChange(fs, s).(submitting := false)
  }

  /** On the create page, a submit the store rejects leaves the form exactly as
      it was before the submit, ready to be sent again. This is about the error
      handler alone: the in-memory repository's `create` never fails, so only a
      repository that can reject a create reaches it. */
  lemma SubmitFailedRestores(fs: FormState, s: EventStore.State, offset: int -> int, now: nat, message: string)
    requires !fs.submitting && !fs.isEditMode
    ensures var sub := OnSubmit(fs, s, offset, now);
            SubmitFailed(sub.form, EventStore.RequestFailed(sub.store, message)) == fs
  {
  }

  /** On the edit page, a rejected update does not give the user back what
      they typed: the controls hold the stored event again. */
  lemma SubmitFailedRefills(fs: FormState, s: EventStore.State, offset: int -> int, now: nat, message: string, e: Event)
    requires !fs.submitting && fs.isEditMode && FormValid(fs.value)
    requires EventStore.SelectedEvent(s) == Some(e)
    ensures var sub := OnSubmit(fs, s, offset, now);
            SubmitFailed(sub.form, EventStore.RequestFailed(sub.store, message))
              == fs.(value := PatchForm(e), loading := false)
  {
    var sub := OnSubmit(fs, s, offset, now);
    assert EventStore.SelectedEvent(EventStore.RequestFailed(sub.store, message)) == Some(e);
  }

  // ---------------------------------------------------------------------------
  // Editing without changes
  // ---------------------------------------------------------------------------

  /** What an unchanged edit writes over the event: the event itself, except
      that the date goes through the UTC format and the local parse, and the
      image URL, when missing or empty, becomes the placeholder. */
  function Resubmitted(ev: Event, offset: int -> int, now: nat): Event {
    ev.(date := ParseLocal(FormatDate(ev.date), offset),
        imageUrl := Some(ImageOrPlaceholder(ImageText(ev.imageUrl), now)))
  }

  /** Opening the edit page on an event the store holds and submitting at once:
      the store selects the event, the form is filled with it, and the submit
      sends an update of that id when the event passes the validators (and
      nothing otherwise). Merged over the event, the update gives
      `Resubmitted(ev, offset, now)`. */
  lemma EditResubmit(s: EventStore.State, routeId: string, ev: Event, offset: int -> int, now: nat)
    requires routeId != ""
    requires Find(s.events, routeId) == Some(ev)
    ensures var (fs, s') := OnInit(s, Some(routeId));
            var r := OnSubmit(fs, s', offset, now);
            && EventStore.SelectedEvent(s') == Some(ev)
            && fs.value == PatchForm(ev) && !fs.loading
            && (!EditableAsIs(ev) ==> r.command == NoCommand)
            && (EditableAsIs(ev) ==>
                  && r.command == UpdateCommand(routeId, r.command.patch)
                  && EventApi.Merge(ev, r.command.patch) == Resubmitted(ev, offset, now))
  {
    PatchFormValidIff(ev);
  }

  /** The repository stores that merge with `updatedAt` stamped by its own clock
      reading `clock`: the stored record is `Resubmitted` with the new stamp. */
  lemma ResubmitStored(repo: seq<Event>, id: string, ev: Event, patch: EventPatch, offset: int -> int, now: nat, clock: Millis)
    requires Find(repo, id) == Some(ev)
    requires EventApi.Merge(ev, patch) == Resubmitted(ev, offset, now)
    ensures EventApi.Update(repo, id, patch, clock).response
            == Success(Resubmitted(ev, offset, now).(updatedAt := clock))
  {
    var i :| IsFirstWithId(repo, id, i) && ev == repo[i];
    var u := EventApi.Update(repo, id, patch, clock);
    var j :| IsFirstWithId(repo, id, j) && u.response.value == EventApi.Merge(repo[j], patch).(updatedAt := clock);
    FirstWithIdUnique(repo, id, i, j);
  }

  lemma FirstWithIdUnique(events: seq<Event>, id: string, i: int, j: int)
    requires IsFirstWithId(events, id, i) && IsFirstWithId(events, id, j)
    ensures i == j
  {
  }

  /** Every field but `updatedAt` of an unchanged edit is written back as it
      was exactly when the date survives the format and parse and the event has
      a non-empty image URL; the stored record equals the event only when the
      repository's clock reading also equals the old `updatedAt`. */
  lemma ResubmittedIdentity(ev: Event, offset: int -> int, now: nat, clock: Millis)
    ensures Resubmitted(ev, offset, now) == ev <==>
      && offset(ev.date / 60000) == -(ev.date % 60000)
      && ev.imageUrl.Some? && ev.imageUrl.value != ""
    ensures Resubmitted(ev, offset, now).(updatedAt := clock) == ev <==>
      && Resubmitted(ev, offset, now) == ev
      && clock == ev.updatedAt
  {
    DateRoundTrip(ev.date, offset);
  }

  /** Concretely: in UTC, on a whole minute, with an image, every field but
      `updatedAt` is written back unchanged. */
  lemma ResubmittedInUtc(ev: Event, offset: int -> int, now: nat)
    requires forall m :: offset(m) == 0
    requires ev.date % 60000 == 0 && ev.imageUrl.Some? && ev.imageUrl.value != ""
    ensures Resubmitted(ev, offset, now) == ev
  {
    ResubmittedIdentity(ev, offset, now, ev.updatedAt);
  }

  /** An event without an image gets the placeholder on an unchanged edit. */
  lemma ResubmitAddsPlaceholder(ev: Event, offset: int -> int, now: nat)
    requires ev.imageUrl.None?
    ensures Resubmitted(ev, offset, now).imageUrl == Some(Placeholder(now))
  {
  }
}

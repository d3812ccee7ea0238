# Cultural events: a Dafny model of the in-memory event logic

This project models the logic of an Angular single-page application that
lists, filters, creates, edits and deletes cultural events (concerts, opera,
theater, exhibitions). It covers:

- the mock repository `EventApiService` (`EventApi`): create, read, update and
  delete over a sequence of events, with NotFound errors;
- the store `EventStore` (`EventStore`): one state record, its `patchState`
  merge, the derived views (filtered list, status counts, selected event), and
  every action as a pure reducer, plus whole actions that run the store and
  the repository together (`App`);
- the filter panel (`EventFilter`): active-filter test, option lists and the
  one-field patches it emits;
- the event card (`EventCard`): the favourites set and the status and seat captions;
- the detail page (`EventDetail`): the countdown arithmetic, the booking
  button and the selection set on init and reset on destroy;
- the form page (`EventForm`): declared validators, copying an event into the
  form, and the submit guard and payload;
- the record types (`EventModel`), with lookups by id shared by the repository
  and the store.

Helpers: `Wrappers` (Option, Result), `Seqs` (order-preserving filter, with
its exact characterisation by positions), `Text` (ASCII lower-casing and
substring search).

Modelling choices:

- The id source (`crypto.randomUUID()`), the clock (`new Date()`, `Date.now()`)
  and the local time zone are parameters. `create` takes two clock readings,
  `createdAt` and `updatedAt`, because the source reads the clock twice.
- The form's `datetime-local` control holds either nothing or a wall-clock time
  to the minute, counted as minutes since 1970-01-01T00:00 on that clock; the
  text spelling of that minute (`YYYY-MM-DDTHH:mm`) is not modelled. Loading an
  event formats its date as the UTC minute; submitting parses the control as
  local time, given the zone's offset from UTC at that wall-clock minute.
- Every mutating repository call (`create`, `update`, `delete`) returns the
  collection after the call together with its reply, so "a failed call leaves
  the collection unchanged" is stated. `getAll` returns the collection and
  `getById` a `Result`; what `getAll` hands to the store is stated by
  `EventStore.LoadEvents`.
- Timestamps are integer milliseconds. `ticketPrice` is a `real`. `availableSeats`
  is an `int`: the repository does not validate it, so it may be negative.
- A status, a category and a filter's wildcard choice are datatypes, so "exactly
  one of draft | published | cancelled" and "a concrete value or `all`" hold by
  construction. `DefaultFilters` is `(all, all, "")`.
- The form's category and status drop-downs list the same options as the filter panel.

Behaviour kept as the code has it:

- `update` lets the patch overwrite `id` and `createdAt`; only `updatedAt` is
  forced (`EventApi.UpdateMayRewriteIdentity`).
- Toggling a cancelled event publishes it (`EventStore.ToggleCancelledPublishes`).
- When the repository updates an id the store's own list lacks, the store is
  left as it was, so `loading` stays on (`EventStore.UpdateEvent`).
- `createdAt` and `updatedAt` of a new event are separate readings and may differ.
- Editing an event and saving it unchanged does not always write it back as it
  was, even apart from the new `updatedAt`: the date is formatted as UTC but
  parsed as local time, and loses its seconds, so outside UTC it moves by the
  zone's offset; an event without an image URL gets the placeholder
  (`EventForm.EditResubmit`, `EventForm.ResubmittedIdentity`).
- The edit page stays subscribed to the selected event, so every store change
  refills its controls: submitting (which turns the store's `loading` on) and a
  rejected update both put the stored event back over what the user typed
  (`EventForm.OnSubmit`, `EventForm.SubmitFailedRefills`).

## Model

| member | source | states |
|---|---|---|
| `EventModel.CategoryLabelsDistinct` | apps/interview/src/app/models/event.model.ts:31-36 | no two categories share a label |
| `EventModel.StatusLabelsDistinct` | apps/interview/src/app/models/event.model.ts:38-42 | no two statuses share a label |
| `EventModel.FindIndex` | apps/interview/src/app/services/event-api.service.ts:47-50 | `findIndex` is absent exactly when no event has the id; otherwise it is the first position carrying it |
| `EventModel.Find` | apps/interview/src/app/services/event-api.service.ts:22-25 | `find` is undefined exactly when no event has the id; otherwise it is the first event carrying it |
| `EventModel.WithoutIdSpec` | apps/interview/src/app/services/event-api.service.ts:71 | removing an id leaves no event with it, keeps exactly the other events in their order, and shortens the list when the id was present |
| `Text.IncludesIffOccurs` | apps/interview/src/app/store/event.store.ts:200-205 | `includes` holds exactly when the term occurs at some position |
| `EventApi.GetById` | apps/interview/src/app/services/event-api.service.ts:21-27 | fails with NotFound exactly when no event has the id; otherwise emits the first event carrying it |
| `EventApi.Create` | apps/interview/src/app/services/event-api.service.ts:29-41 | never fails; the collection grows by one at the end; the new event carries the given fields, the given id and the two clock readings |
| `EventApi.DraftRoundTrip` | apps/interview/src/app/services/event-api.service.ts:32-37 | the caller's fields come back unchanged from the created record |
| `EventApi.CreateKeepsIdsUnique` | apps/interview/src/app/services/event-api.service.ts:29-41 | creating with a fresh id keeps ids unique |
| `EventApi.CreateThenGetById` | apps/interview/src/app/services/event-api.service.ts:21-41 | after creating with a fresh id, `getById` of that id emits the created event |
| `EventApi.Update` | apps/interview/src/app/services/event-api.service.ts:43-64 | absent id: NotFound and the collection unchanged; otherwise the length is kept, only the first match changes, and it becomes the old event overridden by the patch with `updatedAt` set to now |
| `EventApi.UpdateMayRewriteIdentity` | apps/interview/src/app/services/event-api.service.ts:52-56 | a patch carrying `id` and `createdAt` overwrites both, while `updatedAt` is always now |
| `EventApi.Delete` | apps/interview/src/app/services/event-api.service.ts:66-74 | absent id: NotFound and the collection unchanged; otherwise every event with the id is removed |
| `EventApi.DeleteRemovesId` | apps/interview/src/app/services/event-api.service.ts:66-74 | a successful delete leaves no event with the id, keeps the others in order, and shortens the collection |
| `EventStore.PatchState` | apps/interview/src/app/store/event.store.ts:179-181 | each field present in the patch is replaced, each absent one is kept |
| `EventStore.PatchStateCompose` | apps/interview/src/app/store/event.store.ts:179-181 | two successive patches act as their combination, the later one winning |
| `EventStore.PatchStateIdentityAndIdempotent` | apps/interview/src/app/store/event.store.ts:179-181 | the empty patch changes nothing; a patch applied twice acts once |
| `EventStore.MergeFilters` | apps/interview/src/app/store/event.store.ts:83-88 | patched filter fields are replaced, the others kept |
| `EventStore.SelectedEvent` | apps/interview/src/app/store/event.store.ts:43-48 | present exactly when an id is selected and some event carries it; then it is the first such event |
| `EventStore.FilteredEvents` | apps/interview/src/app/store/event.store.ts:50-52 | the filtered list is never longer than the store's events and holds only events matching the current filters |
| `EventStore.SearchPassesIff` | apps/interview/src/app/store/event.store.ts:198-209 | the search test is an empty term, or a case-insensitive occurrence in title, description or venue |
| `EventStore.ApplyDefaultFilters` | apps/interview/src/app/store/event.store.ts:183-213 | the default filters return the list unchanged |
| `EventStore.ApplyFiltersSelects` | apps/interview/src/app/store/event.store.ts:187-212 | the filtered list is the events at increasing positions; a position is kept exactly when its event passes the status, category and search tests |
| `EventStore.ApplyFiltersIdempotent` | apps/interview/src/app/store/event.store.ts:187-212 | filtering the filtered list again changes nothing |
| `EventStore.VenueOnlyMatch` | apps/interview/src/app/store/event.store.ts:199-209 | "jazz" matches an event whose venue is "Jazz Bar" although its title and description do not contain it |
| `EventStore.StatusCountsPartition` | apps/interview/src/app/store/event.store.ts:54-61 | the published, draft and cancelled counts add up to the number of events |
| `EventStore.EventCounts` | apps/interview/src/app/store/event.store.ts:54-61 | total is the number of events; each status count is the number of positions holding that status; the three add up to the total |
| `EventStore.CountsOfThree` | apps/interview/src/app/store/event.store.ts:54-61 | statuses draft, published, cancelled count as total 3 and one each |
| `EventStore.LoadStarted` | apps/interview/src/app/store/event.store.ts:66-67 | loading on and error cleared, nothing else changes |
| `EventStore.LoadSucceeded` | apps/interview/src/app/store/event.store.ts:70-72 | events replaced and loading off, nothing else changes |
| `EventStore.RequestFailed` | apps/interview/src/app/store/event.store.ts:73-75 | every failure: loading off, message recorded, events and everything else unchanged |
| `EventStore.SelectEvent` | apps/interview/src/app/store/event.store.ts:79-81 | only the selection changes |
| `EventStore.UpdateFilters` | apps/interview/src/app/store/event.store.ts:83-88 | only the filters change, to the merge of the patch over them |
| `EventStore.ResetFilters` | apps/interview/src/app/store/event.store.ts:90-92 | only the filters change, to the defaults |
| `EventStore.MutationStarted` | apps/interview/src/app/store/event.store.ts:97 | create, update and delete set loading and change nothing else, not even the error |
| `EventStore.CreateSucceeded` | apps/interview/src/app/store/event.store.ts:101-106 | the created event is appended at the end and loading goes off |
| `EventStore.UpdateSucceeded` | apps/interview/src/app/store/event.store.ts:126-133 | the first local event with the id is replaced and loading goes off; without a local match the state is untouched |
| `EventStore.DeleteSucceeded` | apps/interview/src/app/store/event.store.ts:150-159 | every event with the id goes, loading goes off, the selection is cleared exactly when it was that id |
| `EventStore.LoadEvents` | apps/interview/src/app/store/event.store.ts:66-77 | the store's events become the repository's collection, loading off, error cleared |
| `EventStore.FirstLoadShowsAll` | apps/interview/src/app/store/event.store.ts:23-77 | from the initial state the first load mirrors the repository, ends without loading, error or selection, and the default filters show every event in order |
| `EventStore.CreateEvent` | apps/interview/src/app/store/event.store.ts:94-116 | repository and store both append the created event; a store mirroring the repository keeps doing so |
| `EventStore.UpdateEvent` | apps/interview/src/app/store/event.store.ts:118-143 | absent id: collection unchanged, loading off, NotFound message recorded; otherwise the repository's first carrier becomes the patch merged over it, stamped `now`; if the store holds the id too its first carrier becomes that same record and loading goes off, else the store keeps loading and is otherwise unchanged |
| `EventStore.DeleteEvent` | apps/interview/src/app/store/event.store.ts:145-169 | absent id: collection unchanged, loading off, message recorded; otherwise the repository drops the id and the store takes the delete-success state |
| `EventStore.Toggled` | apps/interview/src/app/store/event.store.ts:175 | the requested status is draft exactly for a published event and never cancelled |
| `EventStore.ToggleEventStatus` | apps/interview/src/app/store/event.store.ts:171-177 | an id absent from the store's list changes nothing |
| `EventStore.UpdateKeepsSync` | apps/interview/src/app/store/event.store.ts:118-143 | a store mirroring the repository still mirrors it after an update, and is no longer loading when the id existed |
| `EventStore.DeleteKeepsSync` | apps/interview/src/app/store/event.store.ts:145-169 | a store mirroring the repository still mirrors it after a delete |
| `EventStore.ToggleEffect` | apps/interview/src/app/store/event.store.ts:171-177 | toggling replaces the first event with the id by itself with the toggled status and new stamp, keeping all other events |
| `EventStore.ToggleCancelledPublishes` | apps/interview/src/app/store/event.store.ts:175 | toggling a cancelled event makes it published |
| `EventFilter.StatusOptions` | apps/interview/src/app/components/event-filter/event-filter.component.ts:213-217 | every status appears exactly once, each with its label |
| `EventFilter.CategoryOptions` | apps/interview/src/app/components/event-filter/event-filter.component.ts:219-224 | every category appears exactly once, each with its label |
| `EventFilter.HasActiveFilters` | apps/interview/src/app/components/event-filter/event-filter.component.ts:226-232 | false exactly when the filters are the defaults |
| `EventFilter.ChangePatchesTouchOneField` | apps/interview/src/app/components/event-filter/event-filter.component.ts:242-252 | each change handler's patch, merged, sets only its own field |
| `EventFilter.ClearPatchesRestoreDefault` | apps/interview/src/app/components/event-filter/event-filter.component.ts:254-264 | each clear handler's patch resets its own field to the default |
| `EventFilter.ClearAllDeactivates` | apps/interview/src/app/components/event-filter/event-filter.component.ts:254-264 | merging all three clear patches leaves the default filters, so none is active |
| `EventCard.ToggleFavorite` | apps/interview/src/app/components/event-card/event-card.component.ts:299-303 | flips the membership of the id and of no other id |
| `EventCard.InitiallyNoFavorite` | apps/interview/src/app/components/event-card/event-card.component.ts:272 | a fresh card has no favourite |
| `EventCard.ToggleTwice` | apps/interview/src/app/components/event-card/event-card.component.ts:299-303 | toggling the same id twice restores the set |
| `EventCard.StatusActionLabel` | apps/interview/src/app/components/event-card/event-card.component.ts:79 | "Unpublish" exactly for published events, "Publish" otherwise |
| `EventCard.SeatsLines` | apps/interview/src/app/components/event-card/event-card.component.ts:59-67 | "seats left" exactly when seats are positive, "Sold out" exactly when zero, never both |
| `EventDetail.UpdateCountdown` | apps/interview/src/app/pages/event-detail/event-detail.component.ts:465-486 | no countdown and the timer stopped for a non-positive difference; otherwise components in range whose milliseconds S satisfy S <= diff < S + 1000 |
| `EventDetail.SplitAccounts` | apps/interview/src/app/pages/event-detail/event-detail.component.ts:480-483 | hours below 24, minutes and seconds below 60, and the parts add up to the difference less its sub-second rest |
| `EventDetail.CountdownRoundTrip` | apps/interview/src/app/pages/event-detail/event-detail.component.ts:480-485 | any in-range countdown plus less than a second is split back into that countdown |
| `EventDetail.Booking` | apps/interview/src/app/pages/event-detail/event-detail.component.ts:120-125 | disabled exactly when no seat is left; "Book Tickets" exactly for positive seats |
| `EventDetail.OnInit` | apps/interview/src/app/pages/event-detail/event-detail.component.ts:400-403 | a route id selects that event; otherwise the store is unchanged |
| `EventDetail.OnDestroy` | apps/interview/src/app/pages/event-detail/event-detail.component.ts:418-423 | the selection and the selected event are reset, nothing else changes |
| `EventForm.FormatDate` | apps/interview/src/app/pages/event-form/event-form.component.ts:423 | the loaded date becomes the UTC wall-clock minute that contains it |
| `EventForm.DateRoundTrip` | apps/interview/src/app/pages/event-form/event-form.component.ts:423-445 | format then parse gives the date less its seconds and milliseconds and less the zone's offset, and gives the date back exactly when the offset cancels the dropped part |
| `EventForm.DateShiftTwoHoursAhead` | apps/interview/src/app/pages/event-form/event-form.component.ts:423-445 | 17:30:45 UTC, edited two hours ahead of UTC, goes back as 15:30 UTC |
| `EventForm.FormValid` | apps/interview/src/app/pages/event-form/event-form.component.ts:397-409 | valid exactly when title has 3+ characters, description 10+, category, status, venue and date are filled in, and price and seats are present and not negative |
| `EventForm.InitialFormInvalid` | apps/interview/src/app/pages/event-form/event-form.component.ts:398-408 | the initial form is invalid |
| `EventForm.OnInit` | apps/interview/src/app/pages/event-form/event-form.component.ts:387-419 | edit mode exactly when the route carries a non-empty id, which is then selected in the store; if the store holds that event the form ends filled in with it and not loading, otherwise it stays at its initial values and keeps loading; without an id the store is unchanged and the form is initial and not loading |
| `EventForm.PatchForm` | apps/interview/src/app/pages/event-form/event-form.component.ts:422-435 | every event field is copied into its control, the date as its UTC minute; a missing image URL becomes "" |
| `EventForm.PatchFormValidIff` | apps/interview/src/app/pages/event-form/event-form.component.ts:399-406 | a loaded event yields a valid form exactly when its title, description, venue, price and seats pass the validators |
| `EventForm.OnStoreChange` | apps/interview/src/app/pages/event-form/event-form.component.ts:414-419 | in edit mode every store change refills the controls with the selected event and ends loading, discarding typed values; with no selected event, or on the create page, the form is untouched |
| `EventForm.OnStoreChangeIdempotent` | apps/interview/src/app/pages/event-form/event-form.component.ts:414-419 | a repeated emission for the same store state changes nothing more |
| `EventForm.Decimal` | apps/interview/src/app/pages/event-form/event-form.component.ts:448 | the seed text is the decimal digits of the clock reading, spelling exactly that number, without a leading zero |
| `EventForm.OnSubmit` | apps/interview/src/app/pages/event-form/event-form.component.ts:437-462 | an invalid form does nothing; a valid one turns the store's loading on, starts submitting and dispatches update in edit mode, create otherwise, carrying every control's value, the date read as local time, and the image URL or the placeholder, and no id or timestamps in an update; in edit mode the store change then refills the controls with the stored event |
| `EventForm.SubmitFailedRestores` | apps/interview/src/app/pages/event-form/event-form.component.ts:440-460 | on the create page a submit the store rejects leaves the form as it was before the submit; this covers the error handler only, since the in-memory repository's `create` never fails |
| `EventForm.SubmitFailedRefills` | apps/interview/src/app/pages/event-form/event-form.component.ts:414-454 | on the edit page a rejected update leaves the controls holding the stored event, not what the user typed |
| `EventForm.ResubmitStored` | apps/interview/src/app/services/event-api.service.ts:52-61 | the repository stores an unchanged edit as the resubmitted event with `updatedAt` set to its own clock reading |
| `EventForm.EditResubmit` | apps/interview/src/app/pages/event-form/event-form.component.ts:387-462 | opening the edit page on a stored event selects it and fills the form at once; submitting then sends an update of that id exactly when the event passes the validators, and merged over the event the update changes only its date (reformatted) and a missing image (replaced) |
| `EventForm.ResubmittedIdentity` | apps/interview/src/app/pages/event-form/event-form.component.ts:423-448 | an unchanged edit writes every field but `updatedAt` back as it was exactly when the zone's offset cancels the dropped seconds and the event has a non-empty image URL; the stored record equals the event only if the repository's clock also reads the old `updatedAt` |
| `EventForm.ResubmittedInUtc` | apps/interview/src/app/pages/event-form/event-form.component.ts:423-448 | in UTC, for a whole-minute date and an event with an image, an unchanged edit leaves every field but `updatedAt` as it was |
| `EventForm.ResubmitAddsPlaceholder` | apps/interview/src/app/pages/event-form/event-form.component.ts:433-448 | an event without an image URL gets the placeholder on an unchanged edit |

## Left out

- Persistence to and reload from `localStorage`, with JSON (de)serialisation and swallowed errors: browser I/O.
- The seed data the repository starts from: the initial collection is a parameter.
- RxJS plumbing (`BehaviorSubject`, `combineLatest`, `delay`, subscriptions): each action is a pure state-to-state function; the edit form's live subscription is modelled as `EventForm.OnStoreChange`, applied where the form's own code changes the store. That the subscription outlives the page, because it is never unsubscribed, is not modelled.
- The simulated 800 ms delay and races between overlapping requests: the model is sequential.
- `crypto.randomUUID()`, `new Date()`, `Date.now()` and the local time zone: parameters. Date texts are wall-clock minutes, not strings, so the calendar spelling `YYYY-MM-DDTHH:mm` is not modelled, nor the `RangeError` of `toISOString` on dates outside its range or an invalid date.
- The time zone is an offset per local wall-clock minute; which instant the browser picks for a wall-clock time that a daylight-saving change skips or repeats is left to that offset.
- `setInterval`, `clearInterval`, `NgZone` and `console.log`: only the countdown arithmetic and the running flag are modelled.
- `Intl.DateTimeFormat`, `confirm()` dialogs, router navigation, templates and styles.
- The error branch of `loadEvents`: the repository's `getAll` never fails, so `LoadEvents` has no failure case; `RequestFailed` is the reducer it would use.
- Unicode case mapping: `toLowerCase` is ASCII lower-casing.
- EventForm.FormValid: string lengths are counted in Unicode scalar values, not in the UTF-16 code units that `minLength` counts, so a title of two characters outside the Basic Multilingual Plane (two emoji, say) passes `minLength(3)` in the source but fails here.
- Floating point: prices are reals, times and seat counts are integers, so fractional seat counts are not modelled.
- A partial event carrying an explicit `undefined` value: a patch field is either absent or holds a value.
- Angular `Validators` internals beyond the declared rules.
- The event list page, header, app shell, bootstrap and routes: they only delegate to the store or configure the framework.
- EventStore.ToggleEventStatus: its contract states only the absent-id case; the effect of a present id is stated by `ToggleEffect` for a store that mirrors the repository.

/** The detail page (`EventDetailComponent`): the countdown arithmetic, the
    booking button, and the selection it sets and resets in the store. The
    timer itself and the clock are outside the model: each tick is a call
    with the difference `eventDate - now` in milliseconds. */
module EventDetail {
  import opened Wrappers
  import EventStore

  // Milliseconds per second, minute, hour and day are written as literals in
  // the arithmetic below (1000, 60000, 3600000, 86400000) so that every
  // product stays linear for the solver.

  datatype Countdown = Countdown(days: int, hours: int, minutes: int, seconds: int)

  /** What the page shows and whether its interval is still running. */
  datatype Timer = Timer(countdown: Option<Countdown>, running: bool)

  /** Every component within its unit's range. */
  predicate InRange(c: Countdown) {
    && 0 <= c.days
    && 0 <= c.hours < 24
    && 0 <= c.minutes < 60
    && 0 <= c.seconds < 60
  }

  /** The whole milliseconds a countdown stands for. */
  function CountdownMillis(c: Countdown): int {
    c.days * 86400000 + c.hours * 3600000 + c.minutes * 60000 + c.seconds * 1000
  }

  /** `updateCountdown`: for a non-positive difference there is no countdown
      and the interval is stopped; otherwise the difference is split into
      in-range days, hours, minutes and seconds that account for it up to
      the milliseconds below one second, and the interval keeps running. */
  function UpdateCountdown(t: Timer, diff: int): (r: Timer)
    ensures diff <= 0 ==> r.countdown.None? && !r.running
    ensures diff > 0 ==> r.running == t.running && r.countdown.Some?
    ensures diff > 0 ==> InRange(r.countdown.value)
    ensures diff > 0 ==> CountdownMillis(r.countdown.value) <= diff < CountdownMillis(r.countdown.value) + 1000
  {
    if diff <= 0 then Timer(None, false)
    else
      var days := diff / 86400000;
      var hours := (diff % 86400000) / 3600000;
      var minutes := (diff % 3600000) / 60000;
      var seconds := (diff % 60000) / 1000;
      SplitAccounts(diff);
      Timer(Some(Countdown(days, hours, minutes, seconds)), t.running)
  }

  lemma MulAtLeast(a: int, k: int)
    requires a >= 1 && k > 0
    ensures a * k >= k
  {
  }

  /** Quotient and remainder are the unique `q`, `r` with `x == q * k + r`
      and `0 <= r < k`. */
  lemma DivModUnique(x: int, k: int, q: int, r: int)
    requires k > 0 && 0 <= r < k && x == q * k + r
    ensures x / k == q && x % k == r
  {
    var q', r' := x / k, x % k;
    assert x == q' * k + r';
    assert (q - q') * k == r' - r;
    if q > q' {
      MulAtLeast(q - q', k);
    } else if q < q' {
      MulAtLeast(q' - q, k);
    }
  }

  /** The four quotients taken by `updateCountdown` are in range and add back
      up to the difference minus its sub-second remainder. */
  lemma SplitAccounts(diff: int)
    requires diff > 0
    ensures (diff % 86400000) / 3600000 < 24
    ensures (diff % 3600000) / 60000 < 60
    ensures (diff % 60000) / 1000 < 60
    ensures diff / 86400000 * 86400000 + (diff % 86400000) / 3600000 * 3600000
            + (diff % 3600000) / 60000 * 60000 + (diff % 60000) / 1000 * 1000
            == diff - diff % 1000
  {
    var d, rd := diff / 86400000, diff % 86400000;
    var h, rh := rd / 3600000, rd % 3600000;
    DivModUnique(diff, 3600000, d * 24 + h, rh);
    var m, rm := rh / 60000, rh % 60000;
    DivModUnique(diff, 60000, (d * 24 + h) * 60 + m, rm);
    var s, rs := rm / 1000, rm % 1000;
    DivModUnique(diff, 1000, ((d * 24 + h) * 60 + m) * 60 + s, rs);
  }

  /** The split is exact: any in-range countdown plus fewer than 1000 extra
      milliseconds, when positive, is split back into that countdown. */
  lemma CountdownRoundTrip(t: Timer, c: Countdown, extra: int)
    requires InRange(c) && 0 <= extra < 1000
    requires CountdownMillis(c) + extra > 0
    ensures UpdateCountdown(t, CountdownMillis(c) + extra).countdown == Some(c)
  {
    var diff := CountdownMillis(c) + extra;
    var lowS := extra;
    var lowM := c.seconds * 1000 + lowS;
    var lowH := c.minutes * 60000 + lowM;
    var lowD := c.hours * 3600000 + lowH;
    DivModUnique(diff, 86400000, c.days, lowD);
    DivModUnique(lowD, 3600000, c.hours, lowH);
    DivModUnique(diff, 3600000, c.days * 24 + c.hours, lowH);
    DivModUnique(lowH, 60000, c.minutes, lowM);
    DivModUnique(diff, 60000, (c.days * 24 + c.hours) * 60 + c.minutes, lowM);
    DivModUnique(lowM, 1000, c.seconds, lowS);
  }

  /** The booking button: disabled exactly when no seat is left. */
  datatype BookingButton = BookingButton(disabled: bool, caption: string)

  function Booking(seats: int): (b: BookingButton)
    ensures b.disabled <==> seats == 0
    ensures b.caption == "Book Tickets" <==> seats > 0
    ensures b.caption == "Sold Out" <==> seats <= 0
  {
    BookingButton(seats == 0, if seats > 0 then "Book Tickets" else "Sold Out")
  }

  /** `ngOnInit`: a route id selects that event in the store; no id leaves the
      store as it was. */
  function OnInit(s: EventStore.State, routeId: Option<string>): (r: EventStore.State)
    ensures routeId.Some? && routeId.value != "" ==> r == s.(selectedEventId := routeId)
    ensures routeId.None? || routeId.value == "" ==> r == s
  {
    if routeId.Some? && routeId.value != "" then EventStore.SelectEvent(s, routeId) else s
  }

  /** `ngOnDestroy`: the selection is reset and with it the selected event;
      nothing else in the store changes. */
  function OnDestroy(s: EventStore.State): (r: EventStore.State)
    ensures r == s.(selectedEventId := None)
    ensures EventStore.SelectedEvent(r).None?
  {
    EventStore.SelectEvent(s, None)
  }
}

/** What the calls on trips do, column by column: the checks they make, in order, the row they leave, and
 * whom they tell.
 */
module TripEffects {
  import opened Domain
  import opened Seats
  import opened Lifecycle
  import opened Checks

  predicate StopsApart(stops: seq<Stop>) {
    forall i, j :: 0 <= i < j < |stops| ==> stops[i].order != stops[j].order
  }

  // ---- creating ----

  ghost predicate RowOf(row: Trip, driverId: UserId, dto: NewTrip) {
    && row.driverId == driverId && row.vehicleId == dto.vehicleId && row.concertId == dto.concertId
    && row.pricingMode == dto.pricingMode && row.totalCost == dto.totalCost && row.currency == dto.currency
    && row.minPassengers == dto.minPassengers && row.maxPassengers == dto.maxPassengers
    && row.deadline == dto.deadline && row.departureAt == dto.departureAt
    && row.roundTrip == (dto.roundTrip == Present(true))
    && row.notes == (if dto.notes.Present? then Some(dto.notes.value) else None)
    && row.stops == (if StopsApart(dto.stops) then dto.stops else [])
    && row.status == TripStatus.Open
  }

  /** A trip needs a vehicle of its driver with the seats it offers, min <= max, and deadline < departure <=
      concert, deadline < concert; it then starts OPEN with the columns asked for. */
  lemma CreateEffect(w: World, call: Call)
    requires call.CreateTrip?
    ensures var o, d := Apply(w, call), call.dto;
            var vehicle, concert := d.vehicleId < |w.vehicles|, d.concertId < |w.concerts|;
            var checks := Passed
              .Check(vehicle, NotFound(VehicleRow))
              .Check(concert, NotFound(ConcertRow))
              .Check(vehicle ==> w.vehicles[d.vehicleId].ownerId == call.driverId, Conflict(NotYourVehicle))
              .Check(d.minPassengers <= d.maxPassengers, Conflict(MinAboveMax))
              .Check(vehicle ==> d.maxPassengers <= w.vehicles[d.vehicleId].seats, Conflict(MaxAboveVehicle))
              .Check(concert ==> d.deadline < w.concerts[d.concertId].startAt, Conflict(DeadlineAfterConcert))
              .Check(d.deadline < d.departureAt, Conflict(DeadlineAfterDeparture))
              .Check(concert ==> d.departureAt <= w.concerts[d.concertId].startAt, Conflict(DepartureAfterConcert));
            && o.sent == []
            && (checks.Failed? ==> o.response == checks.Answer(0) && o.world == w)
            && (checks.Passed? ==>
                  && o.response == (if StopsApart(d.stops) then Ok(|w.trips|) else Err(DatabaseError))
                  && |o.world.trips| == |w.trips| + 1 && RowOf(o.world.trips[|w.trips|], call.driverId, d)
                  && o.world == w.(trips := w.trips + [o.world.trips[|w.trips|]]))
  {
  }

  // ---- editing ----

  /** A given value is stored, and a missing one changes nothing. */
  ghost predicate Stored<T>(p: Patch<T>, before: T, after: T) {
    (p.Present? ==> after == p.value) && (p.Absent? ==> after == before)
  }

  /** The columns of an edited row.  A null minimum or maximum counts as missing, a null date becomes the
      epoch, null notes are no notes, and null stops are no stops. */
  ghost predicate Edited(before: Trip, after: Trip, p: TripPatch) {
    && TermsEdited(before, after, p)
    && PlanEdited(before, after, p)
    && ExtrasEdited(before, after, p)
    && after.driverId == before.driverId && after.status == before.status
  }

  ghost predicate TermsEdited(before: Trip, after: Trip, p: TripPatch) {
    && Stored(p.vehicleId, before.vehicleId, after.vehicleId)
    && Stored(p.concertId, before.concertId, after.concertId)
    && Stored(p.pricingMode, before.pricingMode, after.pricingMode)
    && Stored<int>(p.totalCost, before.totalCost, after.totalCost)
    && Stored(p.currency, before.currency, after.currency)
  }

  ghost predicate PlanEdited(before: Trip, after: Trip, p: TripPatch) {
    && Stored<int>(p.minPassengers, before.minPassengers, after.minPassengers)
    && Stored<int>(p.maxPassengers, before.maxPassengers, after.maxPassengers)
    && (p.minPassengers.Null? ==> after.minPassengers == before.minPassengers)
    && (p.maxPassengers.Null? ==> after.maxPassengers == before.maxPassengers)
    && Stored(p.deadline, before.deadline, after.deadline)
    && Stored(p.departureAt, before.departureAt, after.departureAt)
    && (p.deadline.Null? ==> after.deadline == 0)
    && (p.departureAt.Null? ==> after.departureAt == 0)
  }

  ghost predicate ExtrasEdited(before: Trip, after: Trip, p: TripPatch) {
    && Stored(p.roundTrip, before.roundTrip, after.roundTrip)
    && (p.notes.Present? ==> after.notes == Some(p.notes.value))
    && (p.notes.Absent? ==> after.notes == before.notes)
    && (p.notes.Null? ==> after.notes == None)
    && (p.stops.Present? ==> after.stops == if StopsApart(p.stops.value) then p.stops.value else [])
    && (p.stops.Absent? ==> after.stops == before.stops)
    && (p.stops.Null? ==> after.stops == [])
  }

  /** The value an edit asks for, or else the stored one. */
  ghost function Wanted<T>(p: Patch<T>, stored: T): T {
    match p case Present(v) => v case _ => stored
  }

  ghost function UpdateChecks(w: World, t: TripId, p: TripPatch): Checks {
    if t >= |w.trips| then Failed(NotFound(TripRow))
    else
      var trip := w.trips[t];
      var v, c := Wanted(p.vehicleId, trip.vehicleId), Wanted(p.concertId, trip.concertId);
      var vehicle, concert := v < |w.vehicles|, c < |w.concerts|;
      var min: int, max: int := Wanted<int>(p.minPassengers, trip.minPassengers),
        Wanted<int>(p.maxPassengers, trip.maxPassengers);
      var deadline, departureAt := Wanted(p.deadline, trip.deadline), Wanted(p.departureAt, trip.departureAt);
      Passed
        .Check(trip.status == TripStatus.Open, Conflict(NotOpen))
        .Check(vehicle, NotFound(VehicleRow))
        .Check(concert, NotFound(ConcertRow))
        .Check(vehicle && v != trip.vehicleId ==> w.vehicles[v].ownerId == trip.driverId, Conflict(NotYourVehicle))
        .Check(min <= max, Conflict(MinAboveMax))
        .Check(vehicle ==> max <= w.vehicles[v].seats, Conflict(MaxAboveVehicle))
        .Check(concert ==> deadline < w.concerts[c].startAt, Conflict(DeadlineAfterConcert))
        .Check(deadline < departureAt, Conflict(DeadlineAfterDeparture))
        .Check(concert ==> departureAt <= w.concerts[c].startAt, Conflict(DepartureAfterConcert))
        .Check(!p.vehicleId.Null? && !p.concertId.Null? && !p.pricingMode.Null? && !p.totalCost.Null?
               && !p.currency.Null? && !p.roundTrip.Null?, DatabaseError)
  }

  lemma UpdateRefusals(w: World, t: TripId, p: TripPatch)
    ensures UpdateChecks(w, t, p).Passed? <==> UpdateFault(w, t, p).None?
    ensures UpdateChecks(w, t, p).Failed? ==> UpdateFault(w, t, p) == Some(UpdateChecks(w, t, p).error)
  {
  }

  lemma PatchedTerms(trip: Trip, p: TripPatch)
    ensures TermsEdited(trip, Patched(trip, p), p)
  {
  }

  lemma PatchedPlan(trip: Trip, p: TripPatch)
    ensures PlanEdited(trip, Patched(trip, p), p)
  {
  }

  lemma PatchedExtras(trip: Trip, p: TripPatch)
    ensures ExtrasEdited(trip, Patched(trip, p), p)
  {
  }

  /** An edit of an OPEN trip is checked with the values it asks for, and then stored column by column; the
      answer is an error, although the row is stored, if the stops are null or repeat a place in the route. */
  lemma UpdateEffect(w: World, call: Call)
    requires call.UpdateTrip?
    ensures var o, t, p := Apply(w, call), call.tripId, call.patch;
            var checks := UpdateChecks(w, t, p);
            && o.sent == []
            && (checks.Failed? ==> o.response == checks.Answer(0) && o.world == w)
            && (checks.Passed? ==>
                  && t < |w.trips| && |o.world.trips| == |w.trips| && Edited(w.trips[t], o.world.trips[t], p)
                  && o.world == w.(trips := w.trips[t := o.world.trips[t]])
                  && (p.stops.Null? ==> o.response == Err(TypeError))
                  && (p.stops.Present? && !StopsApart(p.stops.value) ==> o.response == Err(DatabaseError))
                  && (p.stops.Absent? || (p.stops.Present? && StopsApart(p.stops.value)) ==> o.response == Ok(t)))
  {
    UpdateRefusals(w, call.tripId, call.patch);
    if UpdateFault(w, call.tripId, call.patch).None? {
      PatchedTerms(w.trips[call.tripId], call.patch);
      PatchedPlan(w.trips[call.tripId], call.patch);
      PatchedExtras(w.trips[call.tripId], call.patch);
    }
  }

  // ---- the driver's decisions ----

  /** Only a READY trip can be confirmed, and only one that is not finished cancelled. */
  lemma DecisionEffect(w: World, call: Call)
    requires call.ConfirmTrip? || call.CancelTrip?
    ensures var o, t := Apply(w, call), call.tripId;
            var found := t < |w.trips|;
            var checks := Passed
              .Check(found, NotFound(TripRow))
              .Check(call.ConfirmTrip? && found ==> w.trips[t].status == TripStatus.Ready, Conflict(NotReady))
              .Check(call.CancelTrip? && found ==> w.trips[t].status != TripStatus.Cancelled
                                                   && w.trips[t].status != TripStatus.Completed, Conflict(Finished));
            && o.response == checks.Answer(t)
            && (checks.Failed? ==> o.world == w && o.sent == [])
            && (checks.Passed? && call.ConfirmTrip? ==>
                  o.sent == [TripConfirmed(t)]
                  && o.world == w.(trips := w.trips[t := w.trips[t].(status := TripStatus.Confirmed)]))
            && (checks.Passed? && call.CancelTrip? ==>
                  o.sent == [TripCancelled(t)]
                  && o.world == w.(trips := w.trips[t := w.trips[t].(status := TripStatus.Cancelled)]))
  {
  }

  // ---- the sweep ----

  /** OPEN, FULL or READY, past its deadline, with fewer confirmed seats than the minimum. */
  ghost predicate MissedMinimum(w: World, t: TripId, now: Instant) {
    t < |w.trips| && w.trips[t].status in {TripStatus.Open, TripStatus.Full, TripStatus.Ready}
    && w.trips[t].deadline <= now && ConfirmedSeats(w.bookings, t) < w.trips[t].minPassengers
  }

  ghost predicate HasDeparted(w: World, t: TripId, now: Instant) {
    t < |w.trips| && w.trips[t].status == TripStatus.Confirmed && w.trips[t].departureAt <= now
  }

  /** Notices of two kinds in the order of a sweep: cancelled trips before completed ones, each by row. */
  ghost predicate InSweepOrder(a: Notification, b: Notification) {
    || (a.TripCancelled? && b.TripCancelled? && a.tripId < b.tripId)
    || (a.TripCancelled? && b.TripCompleted?)
    || (a.TripCompleted? && b.TripCompleted? && a.tripId < b.tripId)
  }

  lemma {:induction false} CancelledNotices(w: World, now: Instant, n: nat)
    requires n <= |w.trips|
    ensures var sent := CancelledBelow(w, now, n);
            && (forall x :: x in sent <==> x.TripCancelled? && x.tripId < n && MissedMinimum(w, x.tripId, now))
            && (forall i, j :: 0 <= i < j < |sent| ==> InSweepOrder(sent[i], sent[j]))
  {
    if n > 0 {
      CancelledNotices(w, now, n - 1);
      var before := CancelledBelow(w, now, n - 1);
      forall i | 0 <= i < |before| ensures before[i].TripCancelled? && before[i].tripId < n - 1 {
        assert before[i] in before;
      }
    }
  }

  lemma {:induction false} CompletedNotices(w: World, now: Instant, n: nat)
    requires n <= |w.trips|
    ensures var sent := CompletedBelow(w, now, n);
            && (forall x :: x in sent <==> x.TripCompleted? && x.tripId < n && HasDeparted(w, x.tripId, now))
            && (forall i, j :: 0 <= i < j < |sent| ==> InSweepOrder(sent[i], sent[j]))
  {
    if n > 0 {
      CompletedNotices(w, now, n - 1);
      var before := CompletedBelow(w, now, n - 1);
      forall i | 0 <= i < |before| ensures before[i].TripCompleted? && before[i].tripId < n - 1 {
        assert before[i] in before;
      }
    }
  }

  /** The sweep cancels exactly the trips that missed their minimum, completes exactly the departed ones, tells
      each once, the cancelled first, and answers with their number. */
  lemma SweepEffect(w: World, call: Call)
    requires call.SweepExpired?
    ensures var o, now := Apply(w, call), call.now;
            && o.world == w.(trips := o.world.trips) && |o.world.trips| == |w.trips|
            && (forall t: TripId :: t < |w.trips| ==>
                  o.world.trips[t] ==
                    if MissedMinimum(w, t, now) then w.trips[t].(status := TripStatus.Cancelled)
                    else if HasDeparted(w, t, now) then w.trips[t].(status := TripStatus.Completed)
                    else w.trips[t])
            && o.response == Ok(|o.sent|)
            && (forall x :: x in o.sent <==>
                  || (x.TripCancelled? && MissedMinimum(w, x.tripId, now))
                  || (x.TripCompleted? && HasDeparted(w, x.tripId, now)))
            && (forall i, j :: 0 <= i < j < |o.sent| ==> InSweepOrder(o.sent[i], o.sent[j]))
  {
    var first, second := CancelledBelow(w, call.now, |w.trips|), CompletedBelow(w, call.now, |w.trips|);
    var sent := first + second;
    CancelledNotices(w, call.now, |w.trips|);
    CompletedNotices(w, call.now, |w.trips|);
    forall i, j | 0 <= i < j < |sent| ensures InSweepOrder(sent[i], sent[j]) {
      assert i < |first| ==> sent[i] in first;
      assert |first| <= j ==> sent[j] in second;
    }
  }

  // ---- the reminder ----

  ghost predicate DepartsInADay(w: World, t: TripId, now: Instant) {
    t < |w.trips| && w.trips[t].status == TripStatus.Confirmed
    && now + 24 * HOUR <= w.trips[t].departureAt && w.trips[t].departureAt < now + 25 * HOUR
  }

  lemma {:induction false} ReminderNotices(w: World, now: Instant, n: nat)
    requires n <= |w.trips|
    ensures var sent := RemindersBelow(w, now, n);
            && (forall x :: x in sent <==> x.TripReminder? && x.tripId < n && DepartsInADay(w, x.tripId, now))
            && (forall i, j :: 0 <= i < j < |sent| ==> sent[i].tripId < sent[j].tripId)
  {
    if n > 0 {
      ReminderNotices(w, now, n - 1);
      var before := RemindersBelow(w, now, n - 1);
      forall i | 0 <= i < |before| ensures before[i].TripReminder? && before[i].tripId < n - 1 {
        assert before[i] in before;
      }
    }
  }

  /** A tick reminds exactly the CONFIRMED trips departing 24 to 25 hours later, each once, changes nothing,
      and answers with their number. */
  lemma RemindEffect(w: World, call: Call)
    requires call.SendReminders?
    ensures var o := Apply(w, call);
            && o.world == w && o.response == Ok(|o.sent|)
            && (forall x :: x in o.sent <==> x.TripReminder? && DepartsInADay(w, x.tripId, call.now))
            && (forall i, j :: 0 <= i < j < |o.sent| ==> o.sent[i] != o.sent[j])
  {
    ReminderNotices(w, call.now, |w.trips|);
    var sent := RemindersBelow(w, call.now, |w.trips|);
    forall i | 0 <= i < |sent| ensures sent[i].TripReminder? {
      assert sent[i] in sent;
    }
  }
}

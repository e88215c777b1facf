/** Seats against the passenger bounds over a run: what edits and cancellations may leave behind, and
 * exactly when they do.
 */
module Bounds {
  import opened Domain
  import opened Seats
  import opened StateMachine
  import opened Lifecycle
  import opened Moves
  import opened Runs

  // ---- exact statuses ----

  /** An active status tells exactly where the confirmed seats stand. */
  predicate InBand(v: View) {
    IsActive(v.trip.status) ==>
      && (v.trip.status == TripStatus.Open <==> v.seats < v.trip.minPassengers)
      && (v.trip.status == TripStatus.Ready <==> v.trip.minPassengers <= v.seats < v.trip.maxPassengers)
      && (v.trip.status == TripStatus.Full <==> v.trip.maxPassengers <= v.seats)
  }

  /** The status is exact and the trip is not overbooked. */
  predicate Exact(v: View) {
    && 1 <= v.trip.minPassengers <= v.trip.maxPassengers && v.trip.totalCost >= 1
    && v.seats <= v.trip.maxPassengers
    && InBand(v)
  }

  ghost predicate ExactWorld(w: World) {
    Linked(w) && forall t: TripId :: t < |w.trips| ==> Exact(ViewOf(w, t))
  }

  /** A stored update leaves the seats below the minimum it sets; the trip is OPEN and stays so. */
  predicate EditStaysBelowMinimum(w: World, call: Call) {
    StoresUpdate(w, call) ==>
      ConfirmedSeats(w.bookings, call.tripId) < Or<int>(call.patch.minPassengers, w.trips[call.tripId].minPassengers)
  }

  /** A call that is not a stored update of the trip leaves its status exact. */
  lemma OthersKeepExact(w: World, call: Call, t: TripId)
    requires Linked(w) && t < |w.trips| && Exact(ViewOf(w, t)) && !(StoresUpdate(w, call) && call.tripId == t)
    ensures t < |Apply(w, call).world.trips| && Exact(ViewOf(Apply(w, call).world, t))
  {
    var m := CallIsAMove(w, call, t);
  }

  /** The exact condition for one call. */
  lemma CallKeepsExactIff(w: World, call: Call)
    requires ExactWorld(w)
    ensures ExactWorld(Apply(w, call).world) <==> EditStaysBelowMinimum(w, call)
  {
    CallKeepsRows(w, call);
    var w' := Apply(w, call).world;
    forall t: TripId | t < |w'.trips| && !(StoresUpdate(w, call) && call.tripId == t) ensures Exact(ViewOf(w', t)) {
      if t < |w.trips| {
        assert Exact(ViewOf(w, t));
        OthersKeepExact(w, call, t);
      }
    }
    if StoresUpdate(w, call) {
      assert Exact(ViewOf(w, call.tripId));
      var m := CallIsAMove(w, call, call.tripId);
      assert Exact(ViewOf(w', call.tripId)) <==> EditStaysBelowMinimum(w, call);
    }
  }

  /** In all states of a run every active status is exact, and confirmed <= max, if and only if every stored
      update leaves its trip below the minimum. */
  lemma RunExactIff(vehicles: seq<Vehicle>, concerts: seq<Concert>, calls: seq<Call>)
    ensures var w := Fresh(vehicles, concerts);
            Throughout(ExactWorld, w, calls) <==> EveryCall(EditStaysBelowMinimum, w, calls)
  {
    forall w: World, call: Call | SoundWorld(w) && ExactWorld(w)
      ensures ExactWorld(Apply(w, call).world) <==> EditStaysBelowMinimum(w, call)
    {
      CallKeepsExactIff(w, call);
    }
    ThroughoutIff(ExactWorld, EditStaysBelowMinimum, vehicles, concerts, calls);
  }

  predicate KeepsCapacity(call: Call) {
    call.UpdateTrip? ==> !call.patch.minPassengers.Present? && !call.patch.maxPassengers.Present?
  }

  /** In particular in runs that never edit min or max. */
  lemma {:induction false} EveryRunExact(vehicles: seq<Vehicle>, concerts: seq<Concert>, calls: seq<Call>)
    requires forall c :: c in calls ==> KeepsCapacity(c)
    ensures EveryCall(EditStaysBelowMinimum, Fresh(vehicles, concerts), calls)
    ensures ExactWorld(After(Fresh(vehicles, concerts), calls))
  {
    if calls != [] {
      var before, call := calls[..|calls| - 1], calls[|calls| - 1];
      var w := After(Fresh(vehicles, concerts), before);
      assert call in calls;
      EveryRunExact(vehicles, concerts, before);
      if StoresUpdate(w, call) {
        assert Exact(ViewOf(w, call.tripId));
      }
      CallKeepsExactIff(w, call);
    }
  }

  /** However stale an edit left the status, the next accept or confirmed cancellation restores it. */
  lemma SeatChangeRestoresStatus(vehicles: seq<Vehicle>, concerts: seq<Concert>, calls: seq<Call>, call: Call)
    requires call.AcceptBooking? || call.CancelBooking?
    requires var w := After(Fresh(vehicles, concerts), calls);
             Apply(w, call).response.Ok?
             && (call.CancelBooking? ==> w.bookings[call.bookingId].status == BookingStatus.Confirmed)
    ensures var w := After(Fresh(vehicles, concerts), calls);
            var t := w.bookings[call.bookingId].tripId;
            t < |Apply(w, call).world.trips|
            && InBand(ViewOf(Apply(w, call).world, t))
  {
    EveryRunSound(vehicles, concerts, calls);
    var w := After(Fresh(vehicles, concerts), calls);
    assert w.bookings[call.bookingId] in w.bookings;
    var t := w.bookings[call.bookingId].tripId;
    assert Sound(ViewOf(w, t));
    if call.AcceptBooking? {
      var m := AcceptIsAMove(w, call.bookingId, call.now, t);
    } else {
      var m := CancelSeatsIsAMove(w, call.bookingId, call.now, t);
    }
  }

  // ---- capacity ----

  /** No trip has more confirmed seats than it offers. */
  ghost predicate WithinCapacity(w: World) {
    forall t: TripId :: t < |w.trips| ==> ViewOf(w, t).seats <= w.trips[t].maxPassengers
  }

  /** A stored update offers at least the seats already confirmed. */
  predicate EditKeepsCapacity(w: World, call: Call) {
    StoresUpdate(w, call) ==>
      ConfirmedSeats(w.bookings, call.tripId) <= Or<int>(call.patch.maxPassengers, w.trips[call.tripId].maxPassengers)
  }

  lemma CallKeepsCapacityIff(w: World, call: Call)
    requires Linked(w) && WithinCapacity(w)
    ensures WithinCapacity(Apply(w, call).world) <==> EditKeepsCapacity(w, call)
  {
    CallKeepsRows(w, call);
    var w' := Apply(w, call).world;
    forall t: TripId | t < |w'.trips| && !(StoresUpdate(w, call) && call.tripId == t)
      ensures ViewOf(w', t).seats <= w'.trips[t].maxPassengers
    {
      if t < |w.trips| {
        assert ViewOf(w, t).seats <= w.trips[t].maxPassengers;
        var m := CallIsAMove(w, call, t);
      }
    }
    if StoresUpdate(w, call) {
      var m := CallIsAMove(w, call, call.tripId);
      assert ViewOf(w', call.tripId).seats <= w'.trips[call.tripId].maxPassengers <==> EditKeepsCapacity(w, call);
    }
  }

  /** No state of a run has more confirmed seats than a trip offers if and only if no stored update lowers the
      capacity below the seats already confirmed. */
  lemma RunWithinCapacityIff(vehicles: seq<Vehicle>, concerts: seq<Concert>, calls: seq<Call>)
    ensures var w := Fresh(vehicles, concerts);
            Throughout(WithinCapacity, w, calls) <==> EveryCall(EditKeepsCapacity, w, calls)
  {
    forall w: World, call: Call | SoundWorld(w) && WithinCapacity(w)
      ensures WithinCapacity(Apply(w, call).world) <==> EditKeepsCapacity(w, call)
    {
      CallKeepsCapacityIff(w, call);
    }
    ThroughoutIff(WithinCapacity, EditKeepsCapacity, vehicles, concerts, calls);
  }

  /** The largest capacity the trip has had anywhere along the run. */
  function PeakCapacity(w: World, calls: seq<Call>, t: TripId): int {
    var now := if t < |After(w, calls).trips| then After(w, calls).trips[t].maxPassengers else 0;
    if calls == [] then now else Max(PeakCapacity(w, calls[..|calls| - 1], t), now)
  }

  /** Edits may lower the capacity below the seats already confirmed, but confirmed seats never exceed
      the largest capacity the trip has had. */
  lemma {:induction false} SeatsWithinPeakCapacity(vehicles: seq<Vehicle>, concerts: seq<Concert>, calls: seq<Call>,
                                                   t: TripId)
    requires t < |After(Fresh(vehicles, concerts), calls).trips|
    ensures ViewOf(After(Fresh(vehicles, concerts), calls), t).seats
         <= PeakCapacity(Fresh(vehicles, concerts), calls, t)
  {
    if calls != [] {
      var before, call := calls[..|calls| - 1], calls[|calls| - 1];
      var w := After(Fresh(vehicles, concerts), before);
      EveryRunLinked(vehicles, concerts, before);
      CallKeepsRows(w, call);
      if t < |w.trips| {
        SeatsWithinPeakCapacity(vehicles, concerts, before, t);
        CurrentWithinPeak(Fresh(vehicles, concerts), before, t);
        var m := CallIsAMove(w, call, t);
        assert ViewOf(Apply(w, call).world, t).seats <= Max(ViewOf(w, t).seats, w.trips[t].maxPassengers);
      }
    }
  }

  lemma CurrentWithinPeak(w: World, calls: seq<Call>, t: TripId)
    requires t < |After(w, calls).trips|
    ensures After(w, calls).trips[t].maxPassengers <= PeakCapacity(w, calls, t)
  {
  }

  // ---- the minimum of a confirmed trip ----

  /** Every CONFIRMED trip has its minimum. */
  ghost predicate MinimumHeld(w: World) {
    forall t: TripId :: t < |w.trips| && w.trips[t].status == TripStatus.Confirmed ==>
      w.trips[t].minPassengers <= ViewOf(w, t).seats
  }

  /** A confirmed booking of a CONFIRMED trip is cancelled only if the others reach the minimum. */
  predicate CancellationLeavesMinimum(w: World, call: Call) {
    call.CancelBooking? && call.bookingId < |w.bookings| ==>
      var booking := w.bookings[call.bookingId];
      booking.status == BookingStatus.Confirmed && booking.tripId < |w.trips|
      && w.trips[booking.tripId].status == TripStatus.Confirmed ==>
        w.trips[booking.tripId].minPassengers <= ConfirmedSeats(w.bookings, booking.tripId) - booking.seats
  }

  lemma CancellationKeepsMinimumIff(w: World, call: Call)
    requires SoundWorld(w) && MinimumHeld(w) && call.CancelBooking?
    ensures MinimumHeld(Apply(w, call).world) <==> CancellationLeavesMinimum(w, call)
  {
    var w' := Apply(w, call).world;
    CallKeepsRows(w, call);
    var id := call.bookingId;
    assert id < |w.bookings| ==> w.bookings[id] in w.bookings;
    forall t: TripId | t < |w.trips| && !(id < |w.bookings| && w.bookings[id].tripId == t)
      ensures w'.trips[t] == w.trips[t] && ViewOf(w', t) == ViewOf(w, t)
    {
      var m := CancelSeatsIsAMove(w, id, call.now, t);
    }
    if id < |w.bookings| {
      var t := w.bookings[id].tripId;
      var m := CancelSeatsIsAMove(w, id, call.now, t);
      assert w.trips[t].status == TripStatus.Confirmed <==> w'.trips[t].status == TripStatus.Confirmed;
    }
  }

  lemma CallKeepsMinimumIff(w: World, call: Call)
    requires SoundWorld(w) && MinimumHeld(w)
    ensures MinimumHeld(Apply(w, call).world) <==> CancellationLeavesMinimum(w, call)
  {
    if call.CancelBooking? {
      CancellationKeepsMinimumIff(w, call);
    } else {
      CallKeepsRows(w, call);
      var w' := Apply(w, call).world;
      forall t: TripId | t < |w'.trips| && w'.trips[t].status == TripStatus.Confirmed
        ensures w'.trips[t].minPassengers <= ViewOf(w', t).seats
      {
        assert Sound(ViewOf(w, t));
        var m := CallIsAMove(w, call, t);
      }
    }
  }

  /** CONFIRMED trips keep their minimum throughout a run if and only if every cancellation leaves it. */
  lemma RunKeepsMinimumIff(vehicles: seq<Vehicle>, concerts: seq<Concert>, calls: seq<Call>)
    ensures var w := Fresh(vehicles, concerts);
            Throughout(MinimumHeld, w, calls) <==> EveryCall(CancellationLeavesMinimum, w, calls)
  {
    forall w: World, call: Call | SoundWorld(w) && MinimumHeld(w)
      ensures MinimumHeld(Apply(w, call).world) <==> CancellationLeavesMinimum(w, call)
    {
      CallKeepsMinimumIff(w, call);
    }
    ThroughoutIff(MinimumHeld, CancellationLeavesMinimum, vehicles, concerts, calls);
  }
}

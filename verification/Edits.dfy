/** What the checks of creating and editing a trip promise over a run, and what slips past them: explicit
 * nulls, and stops that are replaced after the trip is saved.
 */
module Edits {
  import opened Domain
  import opened Lifecycle
  import opened Moves
  import opened Runs

  // ---- what the checks of creating and editing promise ----

  /** The trip uses a vehicle of its driver, which has the seats it offers. */
  ghost predicate FitsVehicle(w: World, trip: Trip) {
    && trip.vehicleId < |w.vehicles| && w.vehicles[trip.vehicleId].ownerId == trip.driverId
    && trip.maxPassengers <= w.vehicles[trip.vehicleId].seats
    && trip.concertId < |w.concerts|
  }

  ghost predicate Equipped(w: World) {
    forall t: TripId :: t < |w.trips| ==> FitsVehicle(w, w.trips[t])
  }

  lemma CallKeepsEquipped(w: World, call: Call)
    requires Linked(w) && Equipped(w)
    ensures Equipped(Apply(w, call).world)
  {
    var w' := Apply(w, call).world;
    VehiclesAndConcertsStay(w, call);
    forall t: TripId | t < |w'.trips| ensures FitsVehicle(w', w'.trips[t]) {
      if t < |w.trips| {
        assert FitsVehicle(w, w.trips[t]);
        var m := OtherColumnsStay(w, call, t);
      }
    }
  }

  /** Only an update changes more of a trip than its status. */
  lemma OtherColumnsStay(w: World, call: Call, t: TripId) returns (m: Move)
    requires Linked(w) && t < |w.trips|
    ensures var o := Apply(w, call);
            && t < |o.world.trips|
            && (m.Edit? || o.world.trips[t] == w.trips[t].(status := o.world.trips[t].status))
            && (m.Edit? <==> StoresUpdate(w, call) && call.tripId == t)
            && (m.Edit? ==> o.world.trips[t] == Patched(w.trips[t], call.patch))
  {
    m := CallIsAMove(w, call, t);
  }

  /** Tables nobody writes to during a run. */
  lemma VehiclesAndConcertsStay(w: World, call: Call)
    ensures var w' := Apply(w, call).world; w'.vehicles == w.vehicles && w'.concerts == w.concerts
  {
  }

  /** In every run, edits and nulls included, every trip keeps within a vehicle its driver owns. */
  lemma {:induction false} EveryRunEquipped(vehicles: seq<Vehicle>, concerts: seq<Concert>, calls: seq<Call>)
    ensures Equipped(After(Fresh(vehicles, concerts), calls))
  {
    if calls != [] {
      var before := calls[..|calls| - 1];
      EveryRunEquipped(vehicles, concerts, before);
      EveryRunLinked(vehicles, concerts, before);
      CallKeepsEquipped(After(Fresh(vehicles, concerts), before), calls[|calls| - 1]);
    }
  }

  // ---- the schedule of a trip, and explicit nulls ----

  /** The deadline is before the departure, and the departure no later than the concert. */
  ghost predicate OnSchedule(w: World, trip: Trip) {
    trip.concertId < |w.concerts| && trip.deadline < trip.departureAt <= w.concerts[trip.concertId].startAt
  }

  ghost predicate Scheduled(w: World) {
    forall t: TripId :: t < |w.trips| ==> OnSchedule(w, w.trips[t])
  }

  /** Which patches leave the schedule in order.  A null date is stored as the epoch although the
      schedule check was made with the date it replaces. */
  predicate DatesSurvive(w: World, trip: Trip, p: TripPatch) {
    var concertId := Or(p.concertId, trip.concertId);
    if p.departureAt.Null? then
      !p.deadline.Null? && Or(p.deadline, trip.deadline) < 0
      && concertId < |w.concerts| && 0 <= w.concerts[concertId].startAt
    else p.deadline.Null? ==> 0 < Or(p.departureAt, trip.departureAt)
  }

  lemma UpdateKeepsScheduleIff(w: World, id: TripId, p: TripPatch)
    requires UpdateFault(w, id, p).None?
    ensures id < |w.trips|
            && (OnSchedule(Update(w, id, p).world, Update(w, id, p).world.trips[id])
                <==> DatesSurvive(w, w.trips[id], p))
  {
  }

  predicate CallSurvives(w: World, call: Call) {
    StoresUpdate(w, call) ==> DatesSurvive(w, w.trips[call.tripId], call.patch)
  }

  lemma CallKeepsScheduledIff(w: World, call: Call)
    requires Linked(w) && Scheduled(w)
    ensures Scheduled(Apply(w, call).world) <==> CallSurvives(w, call)
  {
    var w' := Apply(w, call).world;
    VehiclesAndConcertsStay(w, call);
    forall t: TripId | t < |w'.trips| && !(StoresUpdate(w, call) && call.tripId == t)
      ensures OnSchedule(w', w'.trips[t])
    {
      if t < |w.trips| {
        assert OnSchedule(w, w.trips[t]);
        var m := OtherColumnsStay(w, call, t);
      }
    }
    if StoresUpdate(w, call) {
      UpdateKeepsScheduleIff(w, call.tripId, call.patch);
    }
  }

  /** All states of a run are on schedule if and only if the dates of every stored update survive. */
  lemma RunScheduledIff(vehicles: seq<Vehicle>, concerts: seq<Concert>, calls: seq<Call>)
    ensures var w := Fresh(vehicles, concerts); Throughout(Scheduled, w, calls) <==> EveryCall(CallSurvives, w, calls)
  {
    forall w: World, call: Call | SoundWorld(w) && Scheduled(w)
      ensures Scheduled(Apply(w, call).world) <==> CallSurvives(w, call)
    {
      CallKeepsScheduledIff(w, call);
    }
    ThroughoutIff(Scheduled, CallSurvives, vehicles, concerts, calls);
  }

  predicate NoNullDates(call: Call) {
    call.UpdateTrip? ==> !call.patch.deadline.Null? && !call.patch.departureAt.Null?
  }

  lemma {:induction false} NoNullsSurvive(w: World, calls: seq<Call>)
    requires forall c :: c in calls ==> NoNullDates(c)
    ensures EveryCall(CallSurvives, w, calls)
  {
    if calls != [] {
      assert calls[|calls| - 1] in calls;
      NoNullsSurvive(w, calls[..|calls| - 1]);
    }
  }

  /** So the deadline stays before the departure, and the departure by the concert, in every run without
      an explicit null date. */
  lemma EveryRunScheduled(vehicles: seq<Vehicle>, concerts: seq<Concert>, calls: seq<Call>)
    requires forall c :: c in calls ==> NoNullDates(c)
    ensures Scheduled(After(Fresh(vehicles, concerts), calls))
  {
    NoNullsSurvive(Fresh(vehicles, concerts), calls);
    RunScheduledIff(vehicles, concerts, calls);
  }

  const ODD_TRIP := NewTrip(0, 0, SharedTotal, 12000, Eur, 2, 4, 100 * HOUR, 200 * HOUR,
                           Absent, Absent, [])
  const NULL_DEPARTURE := TripPatch(Absent, Absent, Absent, Absent, Absent, Absent, Absent, Absent, Null,
                                    Absent, Absent, Absent)

  /** One accepted patch with `departureAt: null` puts the departure before the deadline. */
  lemma NullDepartureBreaksSchedule()
    ensures var calls := [CreateTrip(5, ODD_TRIP), UpdateTrip(0, NULL_DEPARTURE)];
            var w := After(Fresh([Vehicle(5, 4)], [Concert(300 * HOUR)]), calls);
            |w.trips| == 1 && w.trips[0].departureAt == 0 && w.trips[0].deadline == 100 * HOUR && !Scheduled(w)
  {
    var w0 := Fresh([Vehicle(5, 4)], [Concert(300 * HOUR)]);
    var calls := [CreateTrip(5, ODD_TRIP), UpdateTrip(0, NULL_DEPARTURE)];
    var first := calls[..1];
    assert first == [calls[0]] && first[..0] == [];
    assert After(w0, first[..0]) == w0;
    var w1 := After(w0, first);
    assert w1 == Create(w0, 5, ODD_TRIP).world;
    assert UpdateFault(w1, 0, NULL_DEPARTURE).None?;
  }

  // ---- stops ----

  ghost predicate StopsDistinct(w: World) {
    forall t: TripId :: t < |w.trips| ==> DistinctOrders(w.trips[t].stops)
  }

  /** In every run the stops of a trip have distinct places in its route. */
  lemma {:induction false} EveryRunStopsDistinct(vehicles: seq<Vehicle>, concerts: seq<Concert>, calls: seq<Call>)
    ensures StopsDistinct(After(Fresh(vehicles, concerts), calls))
  {
    if calls != [] {
      var before, call := calls[..|calls| - 1], calls[|calls| - 1];
      var w := After(Fresh(vehicles, concerts), before);
      EveryRunStopsDistinct(vehicles, concerts, before);
      EveryRunLinked(vehicles, concerts, before);
      forall t: TripId | t < |Apply(w, call).world.trips| ensures DistinctOrders(Apply(w, call).world.trips[t].stops) {
        if t < |w.trips| {
          var m := OtherColumnsStay(w, call, t);
        }
      }
    }
  }

  // ---- calls that fail half way ----

  /** The trip is stored, and then its stops are not. */
  predicate StoresAndFails(w: World, call: Call) {
    (call.CreateTrip? && CreateFault(w, call.driverId, call.dto).None? && !DistinctOrders(call.dto.stops))
    || (StoresUpdate(w, call) && StopsFail(call.patch.stops))
  }

  /** The database a failing call leaves: the one it found, or the one with the trip but without its stops. */
  function LeftBehind(w: World, call: Call): World {
    if !StoresAndFails(w, call) then w
    else if call.CreateTrip? then w.(trips := w.trips + [NewRow(call.driverId, call.dto).(stops := [])])
    else w.(trips := w.trips[call.tripId := Patched(w.trips[call.tripId], call.patch).(stops := [])])
  }

  /** A failing call sends nothing, and leaves the database alone unless it stores a trip before it fails on
      the stops; then the answer is an error, yet the trip is created or edited and has no stops. */
  lemma FailedCallStores(w: World, call: Call)
    requires Linked(w)
    ensures StoresAndFails(w, call) ==> Apply(w, call).response.Err?
    ensures Apply(w, call).response.Err? ==> Apply(w, call).world == LeftBehind(w, call) && Apply(w, call).sent == []
  {
    if call.CancelBooking? && call.bookingId < |w.bookings| {
      assert w.bookings[call.bookingId] in w.bookings;
    }
  }

  const NO_STOPS := TripPatch(Absent, Absent, Absent, Absent, Absent, Present(1), Absent, Absent, Absent,
                              Absent, Absent, Null)

  /** A patch with `stops: null` is answered by an error, and its other properties are stored. */
  lemma NullStopsAreHalfApplied(w: World, trip: Trip)
    requires w == World([Vehicle(5, 4)], [Concert(300 * HOUR)], [trip], [], [])
    requires trip == NewRow(5, ODD_TRIP).(stops := [Stop(1, "Main Square", None, None, None)])
    ensures var o := Update(w, 0, NO_STOPS);
            o.response == Err(TypeError) && o.world.trips == [trip.(minPassengers := 1, stops := [])]
  {
  }
}

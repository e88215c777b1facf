/** The services themselves: classes over one database, proved to do what `Lifecycle` says. */
module Services {
  import opened Domain
  import opened Seats
  import opened StateMachine
  import opened WaitlistQueue
  import L = Lifecycle

  /** The keys of the trips in one of the statuses, ascending. */
  ghost predicate IdsWith(trips: seq<Trip>, statuses: set<TripStatus>, ids: seq<TripId>) {
    && (forall i, j :: 0 <= i < j < |ids| ==> ids[i] < ids[j])
    && (forall t: TripId :: t in ids <==> t < |trips| && trips[t].status in statuses)
  }

  /** The rows a loop over `ids` has dealt with after `k` rounds: all below this one. */
  ghost function UpTo(trips: seq<Trip>, statuses: set<TripStatus>, ids: seq<TripId>, k: nat): (done: nat)
    requires k <= |ids| && IdsWith(trips, statuses, ids)
    ensures done <= |trips|
  {
    if k == 0 then 0 else
      assert ids[k - 1] in ids;
      ids[k - 1] + 1
  }

  ghost predicate NoneWith(trips: seq<Trip>, statuses: set<TripStatus>, m: nat, n: nat) {
    m <= n <= |trips| && forall t: TripId :: m <= t < n ==> trips[t].status !in statuses
  }

  /** Between two rounds of such a loop no row has one of the statuses. */
  lemma NextId(trips: seq<Trip>, statuses: set<TripStatus>, ids: seq<TripId>, k: nat)
    requires k <= |ids| && IdsWith(trips, statuses, ids)
    ensures k < |ids| ==>
      ids[k] < |trips| && trips[ids[k]].status in statuses && UpTo(trips, statuses, ids, k + 1) == ids[k] + 1
    ensures NoneWith(trips, statuses, UpTo(trips, statuses, ids, k), if k < |ids| then ids[k] else |trips|)
  {
    if k < |ids| {
      assert ids[k] in ids;
    }
    var n := if k < |ids| then ids[k] else |trips|;
    forall t: TripId | UpTo(trips, statuses, ids, k) <= t < n ensures t !in ids {
      forall i | 0 <= i < |ids| ensures ids[i] != t {
        assert i < k - 1 ==> ids[i] < ids[k - 1];
        assert k < i ==> ids[k] < ids[i];
      }
    }
  }

  class Database {
    var vehicles: seq<Vehicle>
    var concerts: seq<Concert>
    var trips: seq<Trip>
    var bookings: seq<Booking>
    var waitlist: seq<WaitlistEntry>
    /** Everything handed to a notification port so far. */
    var log: seq<Notification>

    constructor (vehicles: seq<Vehicle>, concerts: seq<Concert>)
      ensures State() == L.Fresh(vehicles, concerts) && log == []
    {
      this.vehicles, this.concerts := vehicles, concerts;
      trips, bookings, waitlist, log := [], [], [], [];
    }

    function State(): L.World
      reads this
    {
      L.World(vehicles, concerts, trips, bookings, waitlist)
    }

    /** The database is what the outcome says, and its notifications were sent after the earlier ones. */
    ghost predicate Reached(o: L.Outcome, earlier: seq<Notification>)
      reads this
    {
      State() == o.world && log == earlier + o.sent
    }

    method Notify(n: Notification)
      modifies this`log
      ensures log == old(log) + [n]
    {
      log := log + [n];
    }

    method SaveTrip(id: TripId, trip: Trip)
      requires id < |trips|
      modifies this`trips
      ensures trips == old(trips)[id := trip]
    {
      trips := trips[id := trip];
    }

    method SaveBooking(id: BookingId, booking: Booking)
      requires id < |bookings|
      modifies this`bookings
      ensures bookings == old(bookings)[id := booking]
    {
      bookings := bookings[id := booking];
    }

    /** Keys of the trips in one of the statuses. */
    method FindTrips(statuses: set<TripStatus>) returns (ids: seq<TripId>)
      ensures IdsWith(trips, statuses, ids)
    {
      ids := [];
      for t := 0 to |trips|
        invariant forall i, j :: 0 <= i < j < |ids| ==> ids[i] < ids[j]
        invariant forall u: TripId :: u in ids <==> u < t && trips[u].status in statuses
      {
        if trips[t].status in statuses {
          assert forall i :: 0 <= i < |ids| ==> ids[i] in ids;
          ids := ids + [t];
        }
      }
    }

    /** The seats column of the confirmed bookings of a trip, added up. */
    method CountConfirmedSeats(tripId: TripId) returns (sum: nat)
      ensures sum == ConfirmedSeats(bookings, tripId)
    {
      sum := 0;
      for i := 0 to |bookings|
        invariant sum == ConfirmedSeats(bookings[..i], tripId)
      {
        assert bookings[..i + 1][..i] == bookings[..i];
        if bookings[i].tripId == tripId && bookings[i].status == BookingStatus.Confirmed {
          sum := sum + bookings[i].seats;
        }
      }
      assert bookings[..|bookings|] == bookings;
    }

    method FindActiveBooking(tripId: TripId, passengerId: UserId) returns (found: bool)
      ensures found <==> L.HasActiveBooking(bookings, tripId, passengerId)
    {
      for i := 0 to |bookings|
        invariant !L.HasActiveBooking(bookings[..i], tripId, passengerId)
      {
        var b := bookings[i];
        if b.tripId == tripId && b.passengerId == passengerId
           && (b.status == BookingStatus.Pending || b.status == BookingStatus.Confirmed) {
          return true;
        }
      }
      assert bookings[..|bookings|] == bookings;
      return false;
    }
  }

  class TripsService {
    const db: Database

    constructor (db: Database)
      ensures this.db == db
    {
      this.db := db;
    }

    method Create(driverId: UserId, dto: L.NewTrip) returns (r: Result<nat>)
      modifies db
      ensures var o := L.Create(old(db.State()), driverId, dto);
              db.Reached(o, old(db.log)) && r == o.response
    {
      if dto.vehicleId >= |db.vehicles| { return Err(NotFound(VehicleRow)); }
      if dto.concertId >= |db.concerts| { return Err(NotFound(ConcertRow)); }
      var vehicle, concert := db.vehicles[dto.vehicleId], db.concerts[dto.concertId];
      if vehicle.ownerId != driverId { return Err(Conflict(NotYourVehicle)); }
      var fault := L.CapacityFault(vehicle, dto.minPassengers, dto.maxPassengers);
      if fault.Some? { return Err(fault.value); }
      fault := L.ScheduleFault(dto.deadline, dto.departureAt, concert);
      if fault.Some? { return Err(fault.value); }
      var trip := Trip(driverId, dto.vehicleId, dto.concertId, dto.pricingMode, dto.totalCost, dto.currency,
                       dto.minPassengers, dto.maxPassengers, dto.deadline, dto.departureAt,
                       L.Or(dto.roundTrip, false), L.NotesOr(dto.notes, None), [], TripStatus.Open);
      var id := |db.trips|;
      db.trips := db.trips + [trip];
      r := ReplaceStops(id, L.Present(dto.stops));
    }

    /** Deletes the stops of the trip, and then stores the given ones; the two are not one transaction. */
    method ReplaceStops(id: TripId, stops: L.Patch<seq<Stop>>) returns (r: Result<nat>)
      requires id < |db.trips| && !stops.Absent?
      modifies db`trips
      ensures db.trips == old(db.trips)[id := old(db.trips)[id].(stops := L.StopsAfter(old(db.trips)[id].stops, stops))]
      ensures r == L.StopsAnswer(stops, id)
    {
      db.SaveTrip(id, db.trips[id].(stops := []));
      // There is nothing to map over, after the old stops are gone.
      if stops.Null? { return Err(TypeError); }
      // The rows are inserted together, or not at all.
      if !L.DistinctOrders(stops.value) { return Err(DatabaseError); }
      db.SaveTrip(id, db.trips[id].(stops := stops.value));
      return Ok(id);
    }

    method Update(id: TripId, patch: L.TripPatch) returns (r: Result<nat>)
      modifies db
      ensures var o := L.Update(old(db.State()), id, patch);
              db.Reached(o, old(db.log)) && r == o.response
    {
      if id >= |db.trips| { return Err(NotFound(TripRow)); }
      var trip := db.trips[id];
      if trip.status != TripStatus.Open { return Err(Conflict(NotOpen)); }

      var vehicleId := L.Or(patch.vehicleId, trip.vehicleId);
      if vehicleId >= |db.vehicles| { return Err(NotFound(VehicleRow)); }
      var concertId := L.Or(patch.concertId, trip.concertId);
      if concertId >= |db.concerts| { return Err(NotFound(ConcertRow)); }
      if patch.vehicleId.Present? && patch.vehicleId.value != trip.vehicleId
         && db.vehicles[vehicleId].ownerId != trip.driverId {
        return Err(Conflict(NotYourVehicle));
      }

      var min: int, max: int := L.Or<int>(patch.minPassengers, trip.minPassengers),
        L.Or<int>(patch.maxPassengers, trip.maxPassengers);
      var fault := L.CapacityFault(db.vehicles[vehicleId], min, max);
      if fault.Some? { return Err(fault.value); }
      fault := L.ScheduleFault(L.Or(patch.deadline, trip.deadline), L.Or(patch.departureAt, trip.departureAt),
                               db.concerts[concertId]);
      if fault.Some? { return Err(fault.value); }

      trip := AssignColumns(trip, patch, min, max);
      // A null in a column that must not be null is rejected when the row is saved.
      if L.WritesNull(patch) { return Err(DatabaseError); }
      db.SaveTrip(id, trip);
      if patch.stops.Absent? { return Ok(id); }
      r := ReplaceStops(id, patch.stops);
    }

    /** Assigns the given properties; a property that must not be null is left for the save to reject. */
    method AssignColumns(stored: Trip, patch: L.TripPatch, min: int, max: int) returns (trip: Trip)
      requires min == L.Or<int>(patch.minPassengers, stored.minPassengers)
      requires max == L.Or<int>(patch.maxPassengers, stored.maxPassengers)
      ensures trip == L.Patched(stored, patch).(stops := stored.stops)
    {
      trip := AssignTerms(stored, patch);
      trip := trip.(minPassengers := min, maxPassengers := max);
      trip := AssignPlan(trip, patch);
    }

    method AssignTerms(stored: Trip, patch: L.TripPatch) returns (trip: Trip)
      ensures trip == stored.(
        vehicleId := L.Or(patch.vehicleId, stored.vehicleId),
        concertId := L.Or(patch.concertId, stored.concertId),
        pricingMode := L.Or(patch.pricingMode, stored.pricingMode),
        totalCost := L.Or<int>(patch.totalCost, stored.totalCost),
        currency := L.Or(patch.currency, stored.currency))
    {
      trip := stored;
      if patch.vehicleId.Present? { trip := trip.(vehicleId := patch.vehicleId.value); }
      if patch.concertId.Present? { trip := trip.(concertId := patch.concertId.value); }
      if patch.pricingMode.Present? { trip := trip.(pricingMode := patch.pricingMode.value); }
      if patch.totalCost.Present? { trip := trip.(totalCost := patch.totalCost.value); }
      if patch.currency.Present? { trip := trip.(currency := patch.currency.value); }
    }

    method AssignPlan(stored: Trip, patch: L.TripPatch) returns (trip: Trip)
      ensures trip == stored.(
        deadline := L.DateOr(patch.deadline, stored.deadline),
        departureAt := L.DateOr(patch.departureAt, stored.departureAt),
        roundTrip := L.Or(patch.roundTrip, stored.roundTrip),
        notes := L.NotesOr(patch.notes, stored.notes))
    {
      trip := stored;
      if !patch.deadline.Absent? { trip := trip.(deadline := L.DateOr(patch.deadline, 0)); }
      if !patch.departureAt.Absent? { trip := trip.(departureAt := L.DateOr(patch.departureAt, 0)); }
      if patch.roundTrip.Present? { trip := trip.(roundTrip := patch.roundTrip.value); }
      if !patch.notes.Absent? { trip := trip.(notes := L.NotesOr(patch.notes, None)); }
    }

    method Confirm(id: TripId) returns (r: Result<nat>)
      modifies db
      ensures var o := L.Confirm(old(db.State()), id);
              db.Reached(o, old(db.log)) && r == o.response
    {
      if id >= |db.trips| { return Err(NotFound(TripRow)); }
      var trip := db.trips[id];
      if trip.status != TripStatus.Ready { return Err(Conflict(NotReady)); }
      db.SaveTrip(id, trip.(status := TripStatus.Confirmed));
      db.Notify(TripConfirmed(id));
      return Ok(id);
    }

    method Cancel(id: TripId) returns (r: Result<nat>)
      modifies db
      ensures var o := L.Cancel(old(db.State()), id);
              db.Reached(o, old(db.log)) && r == o.response
    {
      if id >= |db.trips| { return Err(NotFound(TripRow)); }
      var trip := db.trips[id];
      if IsFinished(trip.status) { return Err(Conflict(Finished)); }
      db.SaveTrip(id, trip.(status := TripStatus.Cancelled));
      db.Notify(TripCancelled(id));
      return Ok(id);
    }

    method RecomputeStatus(id: TripId) returns (r: Result<nat>)
      modifies db
      ensures var o := L.Recompute(old(db.State()), id);
              db.Reached(o, old(db.log)) && r == o.response
    {
      if id >= |db.trips| { return Err(NotFound(TripRow)); }
      var trip := db.trips[id];
      var confirmed := db.CountConfirmedSeats(id);
      var next := DeriveStatus(trip.status, confirmed, trip.minPassengers, trip.maxPassengers);
      if next == trip.status {
        assert db.trips[id := trip.(status := next)] == db.trips;
        return Ok(id);
      }
      db.SaveTrip(id, trip.(status := next));
      if next == TripStatus.Ready {
        db.Notify(TripReady(id));
      }
      return Ok(id);
    }

    method SweepExpired(now: Instant) returns (r: Result<nat>)
      modifies db
      ensures var o := L.Sweep(old(db.State()), now);
              db.Reached(o, old(db.log)) && r == o.response
    {
      var cancelled := CancelExpired(now);
      var completed := CompleteDeparted(now, old(db.State()));
      assert db.trips == L.Swept(old(db.State()), now).trips;
      return Ok(cancelled + completed);
    }

    /** The first loop of the sweep: active trips past their deadline without the minimum. */
    method CancelExpired(now: Instant) returns (cancelled: nat)
      modifies db`trips, db`log
      ensures db.trips == PartlySwept(old(db.State()), now, |old(db.trips)|, 0)
      ensures var notices := L.CancelledBelow(old(db.State()), now, |db.trips|);
              db.log == old(db.log) + notices && cancelled == |notices|
    {
      ghost var w := db.State();
      ghost var statuses := {TripStatus.Open, TripStatus.Full, TripStatus.Ready};
      var active := db.FindTrips({TripStatus.Open, TripStatus.Full, TripStatus.Ready});
      cancelled := 0;
      for k := 0 to |active|
        invariant db.trips == PartlySwept(w, now, UpTo(w.trips, statuses, active, k), 0)
        invariant db.log == old(db.log) + L.CancelledBelow(w, now, UpTo(w.trips, statuses, active, k))
        invariant cancelled == |L.CancelledBelow(w, now, UpTo(w.trips, statuses, active, k))|
      {
        var id := active[k];
        CancelRound(w, now, statuses, active, k);
        var trip := db.trips[id];
        var confirmed := db.CountConfirmedSeats(id);
        if trip.deadline > now { continue; }
        if confirmed >= trip.minPassengers { continue; }
        db.SaveTrip(id, trip.(status := TripStatus.Cancelled));
        db.Notify(TripCancelled(id));
        cancelled := cancelled + 1;
      }
      CancelRoundsDone(w, now, statuses, active);
    }

    /** The second loop: confirmed trips whose departure has passed.  `w` is the database before the first. */
    method CompleteDeparted(now: Instant, ghost w: L.World) returns (completed: nat)
      requires db.trips == PartlySwept(w, now, |w.trips|, 0)
      modifies db`trips, db`log
      ensures db.trips == PartlySwept(w, now, |w.trips|, |w.trips|)
      ensures var notices := L.CompletedBelow(w, now, |w.trips|);
              db.log == old(db.log) + notices && completed == |notices|
    {
      ghost var statuses := {TripStatus.Confirmed};
      var confirmed := db.FindTrips({TripStatus.Confirmed});
      SameConfirmed(w, now, statuses, confirmed);
      completed := 0;
      for k := 0 to |confirmed|
        invariant db.trips == PartlySwept(w, now, |w.trips|, UpTo(w.trips, statuses, confirmed, k))
        invariant db.log == old(db.log) + L.CompletedBelow(w, now, UpTo(w.trips, statuses, confirmed, k))
        invariant completed == |L.CompletedBelow(w, now, UpTo(w.trips, statuses, confirmed, k))|
      {
        var id := confirmed[k];
        CompleteRound(w, now, statuses, confirmed, k);
        var trip := db.trips[id];
        if trip.departureAt > now { continue; }
        db.SaveTrip(id, trip.(status := TripStatus.Completed));
        db.Notify(TripCompleted(id));
        completed := completed + 1;
      }
      CompleteRoundsDone(w, now, statuses, confirmed);
    }
  }

  class TripReminderJob {
    const db: Database

    constructor (db: Database)
      ensures this.db == db
    {
      this.db := db;
    }

    method SendDueReminders(now: Instant) returns (r: Result<nat>)
      modifies db
      ensures var o := L.Remind(old(db.State()), now);
              db.Reached(o, old(db.log)) && r == o.response
    {
      var windowStart, windowEnd := now + 24 * HOUR, now + 25 * HOUR;
      var count := 0;
      for t := 0 to |db.trips|
        invariant db.State() == old(db.State())
        invariant db.log == old(db.log) + L.RemindersBelow(db.State(), now, t)
        invariant count == |L.RemindersBelow(db.State(), now, t)|
      {
        var trip := db.trips[t];
        if trip.status == TripStatus.Confirmed && windowStart <= trip.departureAt && trip.departureAt < windowEnd {
          db.Notify(TripReminder(t));
          count := count + 1;
        }
      }
      return Ok(count);
    }
  }

  /** The trips while a sweep runs: expired ones below `m` cancelled, departed ones below `n` completed. */
  ghost function PartlySwept(w: L.World, now: Instant, m: nat, n: nat): (trips: seq<Trip>)
    requires m <= |w.trips| && n <= |w.trips|
    ensures |trips| == |w.trips|
  {
    seq(|w.trips|, i requires 0 <= i < |w.trips| =>
      if i < m && L.Expires(w, i, now) then w.trips[i].(status := TripStatus.Cancelled)
      else if i < n && L.Departs(w, i, now) then w.trips[i].(status := TripStatus.Completed)
      else w.trips[i])
  }

  lemma OneCancelled(w: L.World, now: Instant, id: TripId)
    requires id < |w.trips|
    ensures var trips, notices := PartlySwept(w, now, id, 0), L.CancelledBelow(w, now, id);
            if L.Expires(w, id, now)
            then PartlySwept(w, now, id + 1, 0) == trips[id := w.trips[id].(status := TripStatus.Cancelled)]
                 && L.CancelledBelow(w, now, id + 1) == notices + [TripCancelled(id)]
            else PartlySwept(w, now, id + 1, 0) == trips && L.CancelledBelow(w, now, id + 1) == notices
  {
  }

  lemma {:induction false} NoneCancelled(w: L.World, now: Instant, m: nat, n: nat)
    requires NoneWith(w.trips, {TripStatus.Open, TripStatus.Full, TripStatus.Ready}, m, n)
    ensures L.CancelledBelow(w, now, n) == L.CancelledBelow(w, now, m)
    ensures PartlySwept(w, now, n, 0) == PartlySwept(w, now, m, 0)
  {
    if m < n {
      NoneCancelled(w, now, m, n - 1);
      OneCancelled(w, now, n - 1);
    }
  }

  /** The first loop neither makes nor unmakes a confirmed trip. */
  lemma SameConfirmed(w: L.World, now: Instant, statuses: set<TripStatus>, ids: seq<TripId>)
    requires statuses == {TripStatus.Confirmed} && IdsWith(PartlySwept(w, now, |w.trips|, 0), statuses, ids)
    ensures IdsWith(w.trips, statuses, ids)
  {
    var trips := PartlySwept(w, now, |w.trips|, 0);
    forall t: TripId | t < |w.trips| ensures trips[t].status in statuses <==> w.trips[t].status in statuses {
    }
  }

  lemma OneCompleted(w: L.World, now: Instant, id: TripId)
    requires id < |w.trips|
    ensures var all := |w.trips|;
            var trips, notices := PartlySwept(w, now, all, id), L.CompletedBelow(w, now, id);
            if L.Departs(w, id, now)
            then PartlySwept(w, now, all, id + 1) == trips[id := w.trips[id].(status := TripStatus.Completed)]
                 && L.CompletedBelow(w, now, id + 1) == notices + [TripCompleted(id)]
            else PartlySwept(w, now, all, id + 1) == trips && L.CompletedBelow(w, now, id + 1) == notices
  {
  }

  lemma {:induction false} NoneCompleted(w: L.World, now: Instant, m: nat, n: nat)
    requires NoneWith(w.trips, {TripStatus.Confirmed}, m, n)
    ensures L.CompletedBelow(w, now, n) == L.CompletedBelow(w, now, m)
    ensures PartlySwept(w, now, |w.trips|, n) == PartlySwept(w, now, |w.trips|, m)
  {
    if m < n {
      NoneCompleted(w, now, m, n - 1);
      OneCompleted(w, now, n - 1);
    }
  }

  /** One round of the first loop: either the row is changed and announced, or nothing happens. */
  lemma CancelRound(w: L.World, now: Instant, statuses: set<TripStatus>, ids: seq<TripId>, k: nat)
    requires statuses == {TripStatus.Open, TripStatus.Full, TripStatus.Ready}
       && IdsWith(w.trips, statuses, ids) && k < |ids|
    ensures ids[k] < |w.trips| && w.trips[ids[k]].status in statuses
    ensures var done, next := UpTo(w.trips, statuses, ids, k), UpTo(w.trips, statuses, ids, k + 1);
            && PartlySwept(w, now, done, 0)[ids[k]] == w.trips[ids[k]]
            && if L.Expires(w, ids[k], now)
               then PartlySwept(w, now, next, 0)
                    == PartlySwept(w, now, done, 0)[ids[k] := w.trips[ids[k]].(status := TripStatus.Cancelled)]
                    && L.CancelledBelow(w, now, next) == L.CancelledBelow(w, now, done) + [TripCancelled(ids[k])]
               else PartlySwept(w, now, next, 0) == PartlySwept(w, now, done, 0)
                    && L.CancelledBelow(w, now, next) == L.CancelledBelow(w, now, done)
  {
    NextId(w.trips, statuses, ids, k);
    NoneCancelled(w, now, UpTo(w.trips, statuses, ids, k), ids[k]);
    OneCancelled(w, now, ids[k]);
  }

  lemma CancelRoundsDone(w: L.World, now: Instant, statuses: set<TripStatus>, ids: seq<TripId>)
    requires statuses == {TripStatus.Open, TripStatus.Full, TripStatus.Ready} && IdsWith(w.trips, statuses, ids)
    ensures var done := UpTo(w.trips, statuses, ids, |ids|);
            && PartlySwept(w, now, done, 0) == PartlySwept(w, now, |w.trips|, 0)
            && L.CancelledBelow(w, now, done) == L.CancelledBelow(w, now, |w.trips|)
  {
    NextId(w.trips, statuses, ids, |ids|);
    NoneCancelled(w, now, UpTo(w.trips, statuses, ids, |ids|), |w.trips|);
  }

  /** One round of the second loop: either the row is changed and announced, or nothing happens. */
  lemma CompleteRound(w: L.World, now: Instant, statuses: set<TripStatus>, ids: seq<TripId>, k: nat)
    requires statuses == {TripStatus.Confirmed} && IdsWith(w.trips, statuses, ids) && k < |ids|
    ensures ids[k] < |w.trips| && w.trips[ids[k]].status in statuses
    ensures var done, next := UpTo(w.trips, statuses, ids, k), UpTo(w.trips, statuses, ids, k + 1);
            && PartlySwept(w, now, |w.trips|, done)[ids[k]] == w.trips[ids[k]]
            && if L.Departs(w, ids[k], now)
               then PartlySwept(w, now, |w.trips|, next)
                    == PartlySwept(w, now, |w.trips|, done)[ids[k] := w.trips[ids[k]].(status := TripStatus.Completed)]
                    && L.CompletedBelow(w, now, next) == L.CompletedBelow(w, now, done) + [TripCompleted(ids[k])]
               else PartlySwept(w, now, |w.trips|, next) == PartlySwept(w, now, |w.trips|, done)
                    && L.CompletedBelow(w, now, next) == L.CompletedBelow(w, now, done)
  {
    NextId(w.trips, statuses, ids, k);
    NoneCompleted(w, now, UpTo(w.trips, statuses, ids, k), ids[k]);
    OneCompleted(w, now, ids[k]);
  }

  lemma CompleteRoundsDone(w: L.World, now: Instant, statuses: set<TripStatus>, ids: seq<TripId>)
    requires statuses == {TripStatus.Confirmed} && IdsWith(w.trips, statuses, ids)
    ensures var done := UpTo(w.trips, statuses, ids, |ids|);
            && PartlySwept(w, now, |w.trips|, done) == PartlySwept(w, now, |w.trips|, |w.trips|)
            && L.CompletedBelow(w, now, done) == L.CompletedBelow(w, now, |w.trips|)
  {
    NextId(w.trips, statuses, ids, |ids|);
    NoneCompleted(w, now, UpTo(w.trips, statuses, ids, |ids|), |w.trips|);
  }

  class WaitlistService {
    const db: Database

    constructor (db: Database)
      ensures this.db == db
    {
      this.db := db;
    }

    /** One pass over the ordered entries of several trips gives each its rank on its own trip. */
    method PositionsOnTrips(tripIds: set<TripId>) returns (positions: map<nat, nat>)
      requires UniqueRows(db.waitlist)
      ensures forall e :: e in db.waitlist && e.tripId in tripIds ==>
        e.id in positions && positions[e.id] == Rank(db.waitlist, e) == 1 + |AheadOf(db.waitlist, e)|
      ensures forall id :: id in positions ==> KeyOnTrips(db.waitlist, tripIds, id)
    {
      var siblings := Ordered(db.waitlist, tripIds);
      var counts: map<TripId, nat> := map[];
      positions := map[];
      for i := 0 to |siblings|
        invariant forall t: TripId :: CountOr0(counts, t) == OnTrip(siblings[..i], t)
        invariant positions == PositionsUpTo(siblings, i)
      {
        var sibling := siblings[i];
        var next := CountOr0(counts, sibling.tripId) + 1;
        counts := counts[sibling.tripId := next];
        positions := positions[sibling.id := next];
        forall t: TripId ensures CountOr0(counts, t) == OnTrip(siblings[..i + 1], t) {
          OnTripAfterOne(siblings, i, t);
        }
      }
      PositionsAreRanks(db.waitlist, tripIds);
    }

    method PositionOf(entry: WaitlistEntry) returns (position: nat)
      requires UniqueRows(db.waitlist)
      ensures entry in db.waitlist ==> position == Rank(db.waitlist, entry)
      ensures !KeyOnTrips(db.waitlist, {entry.tripId}, entry.id) ==> position == 1
    {
      var positions := PositionsOnTrips({entry.tripId});
      return if entry.id in positions then positions[entry.id] else 1;
    }

    method Join(tripId: TripId, passengerId: UserId, seats: Positive, entryId: nat, now: Instant)
      returns (r: Result<nat>)
      requires UniqueRows(db.waitlist)
      modifies db
      ensures var o := L.Join(old(db.State()), tripId, passengerId, seats, entryId, now);
              db.Reached(o, old(db.log)) && r == o.response
      ensures UniqueRows(db.waitlist)
    {
      if tripId >= |db.trips| { return Err(NotFound(TripRow)); }
      var trip := db.trips[tripId];
      if trip.driverId == passengerId { return Err(Conflict(OwnTrip)); }
      if trip.status != TripStatus.Full { return Err(Conflict(NotFull)); }
      if seats > trip.maxPassengers { return Err(Conflict(AboveCapacity)); }
      if L.EntryIndex(db.waitlist, tripId, passengerId).Some? { return Err(Conflict(AlreadyWaiting)); }
      var active := db.FindActiveBooking(tripId, passengerId);
      if active { return Err(Conflict(AlreadyBooked)); }
      if L.KeyInUse(db.waitlist, entryId) { return Err(DatabaseError); }
      var entry := WaitlistEntry(entryId, tripId, passengerId, seats, now);
      assert forall i :: 0 <= i < |db.waitlist| ==> db.waitlist[i] in db.waitlist;
      db.waitlist := db.waitlist + [entry];
      assert db.waitlist[|db.waitlist| - 1] == entry;
      var position := PositionOf(entry);
      return Ok(position);
    }

    method Leave(tripId: TripId, passengerId: UserId) returns (r: Result<nat>)
      requires UniqueRows(db.waitlist)
      modifies db
      ensures var o := L.Leave(old(db.State()), tripId, passengerId);
              db.Reached(o, old(db.log)) && r == o.response
      ensures UniqueRows(db.waitlist)
    {
      var found := L.EntryIndex(db.waitlist, tripId, passengerId);
      if found.None? { return Err(NotFound(WaitlistRow)); }
      LeavingMovesUpThoseBehind(db.waitlist, found.value, db.waitlist[found.value]);
      db.waitlist := Without(db.waitlist, found.value);
      return Ok(0);
    }

    method NotifyOnSeatFreed(tripId: TripId)
      modifies db`log
      ensures db.log == old(db.log) + L.SeatFreed(db.State(), tripId)
    {
      var entries := Queue(db.waitlist, tripId);
      ghost var notices := L.SeatFreed(db.State(), tripId);
      var index := 0;
      while index < |entries|
        invariant 0 <= index <= |entries|
        invariant db.State() == old(db.State())
        invariant db.log == old(db.log) + notices[..index]
      {
        db.Notify(SeatAvailable(entries[index].id, index + 1));
        index := index + 1;
      }
    }
  }

  class BookingsService {
    const db: Database
    const trips: TripsService
    const waitlist: WaitlistService

    constructor (db: Database, trips: TripsService, waitlist: WaitlistService)
      ensures this.db == db && this.trips == trips && this.waitlist == waitlist
    {
      this.db, this.trips, this.waitlist := db, trips, waitlist;
    }

    predicate Wired() {
      trips.db == db && waitlist.db == db
    }

    method Request(tripId: TripId, passengerId: UserId, seats: Positive) returns (r: Result<nat>)
      modifies db
      ensures var o := L.Request(old(db.State()), tripId, passengerId, seats);
              db.Reached(o, old(db.log)) && r == o.response
    {
      if tripId >= |db.trips| { return Err(NotFound(TripRow)); }
      var trip := db.trips[tripId];
      if trip.driverId == passengerId { return Err(Conflict(OwnTrip)); }
      if !IsActive(trip.status) { return Err(Conflict(NotBookable)); }
      var active := db.FindActiveBooking(tripId, passengerId);
      if active { return Err(Conflict(AlreadyBooked)); }
      var confirmed := db.CountConfirmedSeats(tripId);
      if confirmed + seats > trip.maxPassengers { return Err(Conflict(NoSeats)); }
      var id := |db.bookings|;
      db.bookings := db.bookings + [Booking(tripId, passengerId, seats, BookingStatus.Pending, false, None)];
      db.Notify(BookingRequested(id));
      return Ok(id);
    }

    method Accept(id: BookingId, now: Instant) returns (r: Result<nat>)
      requires Wired()
      modifies db
      ensures var o := L.Accept(old(db.State()), id, now);
              db.Reached(o, old(db.log)) && r == o.response
    {
      if id >= |db.bookings| { return Err(NotFound(BookingRow)); }
      var booking := db.bookings[id];
      if booking.status != BookingStatus.Pending { return Err(Conflict(NotPending)); }
      if booking.tripId >= |db.trips| { return Err(NotFound(TripRow)); }
      var trip := db.trips[booking.tripId];
      if !IsActive(trip.status) { return Err(Conflict(NotBookable)); }
      var occupied := db.CountConfirmedSeats(booking.tripId);
      if occupied + booking.seats > trip.maxPassengers { return Err(Conflict(NoSeats)); }
      db.SaveBooking(id, booking.(status := BookingStatus.Confirmed, decidedAt := Some(now)));
      assert db.State() == L.Decide(old(db.State()), id, BookingStatus.Confirmed, now);
      var _ := trips.RecomputeStatus(booking.tripId);
      db.Notify(BookingAccepted(id));
      return Ok(id);
    }

    method Reject(id: BookingId, now: Instant) returns (r: Result<nat>)
      modifies db
      ensures var o := L.Reject(old(db.State()), id, now);
              db.Reached(o, old(db.log)) && r == o.response
    {
      if id >= |db.bookings| { return Err(NotFound(BookingRow)); }
      var booking := db.bookings[id];
      if booking.status != BookingStatus.Pending { return Err(Conflict(NotPending)); }
      db.SaveBooking(id, booking.(status := BookingStatus.Rejected, decidedAt := Some(now)));
      db.Notify(BookingRejected(id));
      return Ok(id);
    }

    method Cancel(id: BookingId, now: Instant) returns (r: Result<nat>)
      requires Wired()
      modifies db
      ensures var o := L.CancelSeats(old(db.State()), id, now);
              db.Reached(o, old(db.log)) && r == o.response
    {
      if id >= |db.bookings| { return Err(NotFound(BookingRow)); }
      var booking := db.bookings[id];
      if booking.status != BookingStatus.Pending && booking.status != BookingStatus.Confirmed {
        return Err(Conflict(NotCancellable));
      }
      var wasConfirmed := booking.status == BookingStatus.Confirmed;
      db.SaveBooking(id, booking.(status := BookingStatus.CancelledByPassenger, decidedAt := Some(now)));
      assert db.State() == L.Decide(old(db.State()), id, BookingStatus.CancelledByPassenger, now);
      if wasConfirmed {
        var recomputed := trips.RecomputeStatus(booking.tripId);
        if recomputed.Err? { return recomputed; }
        waitlist.NotifyOnSeatFreed(booking.tripId);
      }
      return Ok(id);
    }

    method SetPaid(id: BookingId, paid: bool) returns (r: Result<nat>)
      modifies db
      ensures var o := L.MarkPaid(old(db.State()), id, paid);
              db.Reached(o, old(db.log)) && r == o.response
    {
      if id >= |db.bookings| { return Err(NotFound(BookingRow)); }
      var booking := db.bookings[id];
      if booking.status != BookingStatus.Confirmed { return Err(Conflict(NotConfirmed)); }
      db.SaveBooking(id, booking.(paid := paid));
      return Ok(id);
    }
  }
}

/** What holds in every run: any sequence of service calls from an empty trip table. */
module Runs {
  import opened Domain
  import opened Seats
  import opened StateMachine
  import opened WaitlistQueue
  import opened Lifecycle
  import opened Moves

  // ---- the row structure ----

  /** Rows are only ever added; a new trip is open, unbooked, and passed its checks. */
  lemma CallKeepsRows(w: World, call: Call)
    requires Linked(w)
    ensures var w' := Apply(w, call).world;
            && Linked(w')
            && |w.trips| <= |w'.trips| <= |w.trips| + 1
            && (|w'.trips| > |w.trips| ==> call.CreateTrip? && var v := ViewOf(w', |w.trips|);
                  v.trip.status == TripStatus.Open && v.seats == 0
                  && 1 <= v.trip.minPassengers <= v.trip.maxPassengers
                  && v.trip.totalCost >= 1
                  && v.trip.deadline < v.trip.departureAt)
            && (forall t: TripId :: t >= |w.trips| ==> Life(Apply(w, call).sent, t) == [])
  {
    var w' := Apply(w, call).world;
    BookingsStayLinked(w, call);
    WaitlistStaysLinked(w, call);
    if |w'.trips| > |w.trips| {
      assert forall i :: 0 <= i < |w.bookings| ==> w.bookings[i] in w.bookings;
      NoSeatsWithoutBookings(w.bookings, |w.trips|);
    }
    forall t: TripId | t >= |w.trips| ensures Life(Apply(w, call).sent, t) == [] {
      NoNoticeWithoutTrip(w, call, t);
    }
  }

  lemma BookingsStayLinked(w: World, call: Call)
    requires Linked(w)
    ensures forall b :: b in Apply(w, call).world.bookings ==> b.tripId < |w.trips|
  {
    var bookings := Apply(w, call).world.bookings;
    forall b | b in bookings ensures b.tripId < |w.trips| {
      var i :| 0 <= i < |bookings| && bookings[i] == b;
      if i < |w.bookings| {
        assert w.bookings[i] in w.bookings;
      }
    }
  }

  ghost predicate LinkedRows(rows: seq<WaitlistEntry>, n: nat) {
    UniqueRows(rows) && forall e :: e in rows ==> e.tripId < n
  }

  lemma JoinStaysLinked(w: World, call: Call)
    requires Linked(w) && call.JoinWaitlist?
    ensures LinkedRows(Apply(w, call).world.waitlist, |w.trips|)
  {
    assert forall i :: 0 <= i < |w.waitlist| ==> w.waitlist[i] in w.waitlist;
  }

  lemma LeaveStaysLinked(w: World, call: Call)
    requires Linked(w) && call.LeaveWaitlist?
    ensures LinkedRows(Apply(w, call).world.waitlist, |w.trips|)
  {
    var found := EntryIndex(w.waitlist, call.tripId, call.passengerId);
    if found.Some? {
      LeavingMovesUpThoseBehind(w.waitlist, found.value, w.waitlist[found.value]);
    }
  }

  lemma WaitlistStaysLinked(w: World, call: Call)
    requires Linked(w)
    ensures LinkedRows(Apply(w, call).world.waitlist, |w.trips|)
  {
    if call.JoinWaitlist? {
      JoinStaysLinked(w, call);
    } else if call.LeaveWaitlist? {
      LeaveStaysLinked(w, call);
    } else {
      assert Apply(w, call).world.waitlist == w.waitlist;
    }
  }

  lemma NoNoticeWithoutTrip(w: World, call: Call, t: TripId)
    requires Linked(w) && t >= |w.trips|
    ensures Life(Apply(w, call).sent, t) == []
  {
    if call.SweepExpired? {
      LifeOfSweep(w, call.now, t);
    } else {
      if call.SendReminders? {
        RemindersAreReminders(w, call.now, |w.trips|);
      } else if call.AcceptBooking? || call.CancelBooking? {
        assert call.bookingId < |w.bookings| ==> w.bookings[call.bookingId] in w.bookings;
      }
      NoLife(Apply(w, call).sent, t);
    }
  }

  lemma {:induction false} EveryRunLinked(vehicles: seq<Vehicle>, concerts: seq<Concert>, calls: seq<Call>)
    ensures Linked(After(Fresh(vehicles, concerts), calls))
  {
    if calls != [] {
      var before := calls[..|calls| - 1];
      EveryRunLinked(vehicles, concerts, before);
      CallKeepsRows(After(Fresh(vehicles, concerts), before), calls[|calls| - 1]);
    }
  }

  // ---- status and seats ----

  /** READY and FULL mean what they say, and the passenger bounds and the cost are in order. */
  predicate Sound(v: View) {
    && 1 <= v.trip.minPassengers <= v.trip.maxPassengers && v.trip.totalCost >= 1
    && (v.trip.status == TripStatus.Ready ==> v.trip.minPassengers <= v.seats < v.trip.maxPassengers)
    && (v.trip.status == TripStatus.Full ==> v.seats >= v.trip.maxPassengers)
  }

  ghost predicate SoundWorld(w: World) {
    Linked(w) && forall t: TripId :: t < |w.trips| ==> Sound(ViewOf(w, t))
  }

  lemma CallKeepsSound(w: World, call: Call)
    requires SoundWorld(w)
    ensures SoundWorld(Apply(w, call).world)
  {
    CallKeepsRows(w, call);
    var w' := Apply(w, call).world;
    forall t: TripId | t < |w'.trips| ensures Sound(ViewOf(w', t)) {
      if t < |w.trips| {
        var m := CallIsAMove(w, call, t);
        assert Sound(ViewOf(w, t));
      }
    }
  }

  /** In every run, edits included, READY implies min <= confirmed < max, FULL implies confirmed >= max,
      and every stored trip keeps 1 <= min <= max. */
  lemma {:induction false} EveryRunSound(vehicles: seq<Vehicle>, concerts: seq<Concert>, calls: seq<Call>)
    ensures SoundWorld(After(Fresh(vehicles, concerts), calls))
  {
    if calls != [] {
      var before := calls[..|calls| - 1];
      EveryRunSound(vehicles, concerts, before);
      CallKeepsSound(After(Fresh(vehicles, concerts), before), calls[|calls| - 1]);
    }
  }

  // ---- what holds throughout a run, and exactly when ----

  /** Every state of the run satisfies `inv`. */
  ghost predicate Throughout(inv: World -> bool, w: World, calls: seq<Call>) {
    inv(After(w, calls)) && (calls != [] ==> Throughout(inv, w, calls[..|calls| - 1]))
  }

  /** Every call of the run satisfies `guard` in the state it finds. */
  predicate EveryCall(guard: (World, Call) -> bool, w: World, calls: seq<Call>) {
    calls != [] ==>
      EveryCall(guard, w, calls[..|calls| - 1]) && guard(After(w, calls[..|calls| - 1]), calls[|calls| - 1])
  }

  /** A condition that is exact for one call is exact for runs. */
  lemma {:induction false} ThroughoutIff(inv: World -> bool, guard: (World, Call) -> bool,
                                         vehicles: seq<Vehicle>, concerts: seq<Concert>, calls: seq<Call>)
    requires inv(Fresh(vehicles, concerts))
    requires forall w: World, call: Call :: SoundWorld(w) && inv(w) ==> (inv(Apply(w, call).world) <==> guard(w, call))
    ensures Throughout(inv, Fresh(vehicles, concerts), calls) <==> EveryCall(guard, Fresh(vehicles, concerts), calls)
  {
    if calls != [] {
      var before := calls[..|calls| - 1];
      var w := After(Fresh(vehicles, concerts), before);
      ThroughoutIff(inv, guard, vehicles, concerts, before);
      if inv(w) {
        EveryRunSound(vehicles, concerts, before);
        assert inv(Apply(w, calls[|calls| - 1]).world) <==> guard(w, calls[|calls| - 1]);
      } else {
        assert !Throughout(inv, Fresh(vehicles, concerts), before);
      }
    }
  }

  // ---- what READY and FULL promise ----

  /** Every successful confirmation happens with the minimum met and a seat to spare. */
  lemma ConfirmedWithMinimumMet(vehicles: seq<Vehicle>, concerts: seq<Concert>, calls: seq<Call>, t: TripId)
    requires Confirm(After(Fresh(vehicles, concerts), calls), t).response.Ok?
    ensures var v := ViewOf(After(Fresh(vehicles, concerts), calls), t);
            v.trip.minPassengers <= v.seats < v.trip.maxPassengers
  {
    EveryRunSound(vehicles, concerts, calls);
    assert Sound(ViewOf(After(Fresh(vehicles, concerts), calls), t));
  }

  /** A trip whose minimum is its capacity goes straight to FULL and can never be confirmed as it is. */
  lemma {:induction false} MinimumEqualToCapacityNeverConfirms(vehicles: seq<Vehicle>, concerts: seq<Concert>,
                                                               calls: seq<Call>, t: TripId)
    requires var w := After(Fresh(vehicles, concerts), calls);
             t < |w.trips| && w.trips[t].minPassengers == w.trips[t].maxPassengers
    ensures Confirm(After(Fresh(vehicles, concerts), calls), t).response == Err(Conflict(NotReady))
  {
    EveryRunSound(vehicles, concerts, calls);
    assert Sound(ViewOf(After(Fresh(vehicles, concerts), calls), t));
  }

  /** The sweep looks at OPEN, FULL and READY trips but only ever cancels OPEN ones. */
  lemma SweepCancelsOnlyOpen(vehicles: seq<Vehicle>, concerts: seq<Concert>, calls: seq<Call>, now: Instant, t: TripId)
    requires t < |After(Fresh(vehicles, concerts), calls).trips|
    requires Expires(After(Fresh(vehicles, concerts), calls), t, now)
    ensures After(Fresh(vehicles, concerts), calls).trips[t].status == TripStatus.Open
  {
    EveryRunSound(vehicles, concerts, calls);
    assert Sound(ViewOf(After(Fresh(vehicles, concerts), calls), t));
  }

  /** FULL counts as bookable, yet no request and no accept ever succeeds on a FULL trip. */
  lemma NothingBookedOnFull(vehicles: seq<Vehicle>, concerts: seq<Concert>, calls: seq<Call>, t: TripId,
                            passengerId: UserId, seats: Positive, id: BookingId, now: Instant)
    requires var w := After(Fresh(vehicles, concerts), calls); t < |w.trips| && w.trips[t].status == TripStatus.Full
    ensures var w := After(Fresh(vehicles, concerts), calls);
            && Request(w, t, passengerId, seats).response.Err?
            && (id < |w.bookings| && w.bookings[id].tripId == t ==> Accept(w, id, now).response.Err?)
  {
    EveryRunSound(vehicles, concerts, calls);
    assert Sound(ViewOf(After(Fresh(vehicles, concerts), calls), t));
  }

  // ---- finished trips ----

  /** CANCELLED and COMPLETED are absorbing: no later call changes the row, seats aside. */
  lemma {:induction false} FinishedIsFinal(w: World, calls: seq<Call>, t: TripId)
    requires Linked(w) && t < |w.trips| && IsFinished(w.trips[t].status)
    ensures Linked(After(w, calls)) && t < |After(w, calls).trips|
    ensures After(w, calls).trips[t] == w.trips[t]
    ensures ViewOf(After(w, calls), t).seats <= ViewOf(w, t).seats
  {
    if calls != [] {
      var before, call := calls[..|calls| - 1], calls[|calls| - 1];
      FinishedIsFinal(w, before, t);
      CallKeepsRows(After(w, before), call);
      var m := CallIsAMove(After(w, before), call, t);
    }
  }
}

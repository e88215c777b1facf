/** One trip's view of the whole system.
 *
 * Whatever a service call does to the database, it does one of eight things to any
 * one trip.  `CallIsAMove` proves this for every call; every theorem about runs is
 * then a short case split over the moves.
 */
module Moves {
  import opened Domain
  import opened Seats
  import opened StateMachine
  import opened WaitlistQueue
  import opened Lifecycle

  datatype Move =
    | Stay
    | Edit
    | Take(seats: Positive)
    | Free(seats: Positive)
    | DriverConfirms
    | DriverCancels
    | Expire
    | Depart

  /** A trip row with the seats its confirmed bookings hold. */
  datatype View = View(trip: Trip, seats: nat)

  function ViewOf(w: World, t: TripId): View
    requires t < |w.trips|
  {
    View(w.trips[t], ConfirmedSeats(w.bookings, t))
  }

  function Derived(v: View): TripStatus {
    DeriveStatus(v.trip.status, v.seats, v.trip.minPassengers, v.trip.maxPassengers)
  }

  /** The effect of a move on the row, its seats and the lifecycle notifications of the trip. */
  ghost predicate Moved(t: TripId, m: Move, a: View, b: View, sent: seq<Notification>) {
    match m
    case Stay => b == a && sent == []
    case Edit =>
      a.trip.status == b.trip.status == TripStatus.Open && b.seats == a.seats && sent == []
      && (1 <= a.trip.minPassengers ==> 1 <= b.trip.minPassengers)
      && b.trip.minPassengers <= b.trip.maxPassengers
    case Take(k) =>
      IsActive(a.trip.status)
      && b.seats == a.seats + k && b.seats <= a.trip.maxPassengers
      && b.trip == a.trip.(status := Derived(View(a.trip, b.seats)))
      && sent == ReadyNotice(t, a.trip.status, b.trip.status)
    case Free(k) =>
      a.seats == b.seats + k
      && b.trip == a.trip.(status := Derived(View(a.trip, b.seats)))
      && sent == ReadyNotice(t, a.trip.status, b.trip.status)
    case DriverConfirms =>
      a.trip.status == TripStatus.Ready
      && b == a.(trip := a.trip.(status := TripStatus.Confirmed)) && sent == [TripConfirmed(t)]
    case DriverCancels =>
      !IsFinished(a.trip.status)
      && b == a.(trip := a.trip.(status := TripStatus.Cancelled)) && sent == [TripCancelled(t)]
    case Expire =>
      IsActive(a.trip.status) && a.seats < a.trip.minPassengers
      && b == a.(trip := a.trip.(status := TripStatus.Cancelled)) && sent == [TripCancelled(t)]
    case Depart =>
      a.trip.status == TripStatus.Confirmed
      && b == a.(trip := a.trip.(status := TripStatus.Completed)) && sent == [TripCompleted(t)]
  }

  predicate IsLife(n: Notification, t: TripId) {
    n == TripReady(t) || n == TripConfirmed(t) || n == TripCancelled(t) || n == TripCompleted(t)
  }

  /** The lifecycle notifications of one trip, in order. */
  function Life(log: seq<Notification>, t: TripId): seq<Notification> {
    if log == [] then []
    else Life(log[..|log| - 1], t) + if IsLife(log[|log| - 1], t) then [log[|log| - 1]] else []
  }

  lemma {:induction false} LifeConcat(a: seq<Notification>, b: seq<Notification>, t: TripId)
    ensures Life(a + b, t) == Life(a, t) + Life(b, t)
  {
    if b == [] {
      assert a + b == a;
    } else {
      LifeConcat(a, b[..|b| - 1], t);
      assert (a + b)[..|a + b| - 1] == a + b[..|b| - 1];
    }
  }

  lemma {:induction false} NoLife(log: seq<Notification>, t: TripId)
    requires forall n :: n in log ==> !IsLife(n, t)
    ensures Life(log, t) == []
  {
    if log != [] {
      assert log[|log| - 1] in log;
      NoLife(log[..|log| - 1], t);
    }
  }

  /** Every row a booking, a waitlist entry or a sent notification refers to exists, and the unique
      indexes hold. */
  ghost predicate Linked(w: World) {
    && (forall b :: b in w.bookings ==> b.tripId < |w.trips|)
    && (forall e :: e in w.waitlist ==> e.tripId < |w.trips|)
    && UniqueRows(w.waitlist)
  }

  // ---- the sweep ----

  lemma LifeStep(before: seq<Notification>, after: seq<Notification>, n: Notification, sent: bool, t: TripId)
    requires after == if sent then before + [n] else before
    ensures sent && IsLife(n, t) && Life(before, t) == [] ==> Life(after, t) == [n]
    ensures !(sent && IsLife(n, t)) ==> Life(after, t) == Life(before, t)
  {
    if sent {
      assert after[..|after| - 1] == before;
    }
  }

  lemma {:induction false} LifeOfCancelled(w: World, now: Instant, n: nat, t: TripId)
    requires n <= |w.trips|
    ensures t < n && Expires(w, t, now) ==> Life(CancelledBelow(w, now, n), t) == [TripCancelled(t)]
    ensures !(t < n && Expires(w, t, now)) ==> Life(CancelledBelow(w, now, n), t) == []
  {
    if n > 0 {
      LifeOfCancelled(w, now, n - 1, t);
      LifeStep(CancelledBelow(w, now, n - 1), CancelledBelow(w, now, n),
               TripCancelled(n - 1), Expires(w, n - 1, now), t);
    }
  }

  lemma {:induction false} LifeOfCompleted(w: World, now: Instant, n: nat, t: TripId)
    requires n <= |w.trips|
    ensures t < n && Departs(w, t, now) ==> Life(CompletedBelow(w, now, n), t) == [TripCompleted(t)]
    ensures !(t < n && Departs(w, t, now)) ==> Life(CompletedBelow(w, now, n), t) == []
  {
    if n > 0 {
      LifeOfCompleted(w, now, n - 1, t);
      LifeStep(CompletedBelow(w, now, n - 1), CompletedBelow(w, now, n),
               TripCompleted(n - 1), Departs(w, n - 1, now), t);
    }
  }

  lemma LifeOfSweep(w: World, now: Instant, t: TripId)
    ensures Life(Sweep(w, now).sent, t)
         == if t >= |w.trips| then []
            else if Expires(w, t, now) then [TripCancelled(t)]
            else if Departs(w, t, now) then [TripCompleted(t)] else []
  {
    var n := |w.trips|;
    LifeOfCancelled(w, now, n, t);
    LifeOfCompleted(w, now, n, t);
    LifeConcat(CancelledBelow(w, now, n), CompletedBelow(w, now, n), t);
  }

  lemma SweepIsAMove(w: World, now: Instant, t: TripId) returns (m: Move)
    requires t < |w.trips|
    ensures var o := Sweep(w, now); Moved(t, m, ViewOf(w, t), ViewOf(o.world, t), Life(o.sent, t))
    ensures m.Stay? || m.Expire? || m.Depart?
    ensures m.Expire? <==> Expires(w, t, now)
    ensures m.Depart? <==> Departs(w, t, now)
  {
    LifeOfSweep(w, now, t);
    m := if Expires(w, t, now) then Expire else if Departs(w, t, now) then Depart else Stay;
  }

  lemma {:induction false} RemindersAreReminders(w: World, now: Instant, n: nat)
    requires n <= |w.trips|
    ensures forall x :: x in RemindersBelow(w, now, n) ==> x.TripReminder?
  {
    if n > 0 {
      RemindersAreReminders(w, now, n - 1);
    }
  }

  // ---- bookings ----

  /** Changing one booking row and deriving its trip's status again. */
  lemma SaveAndRecompute(w: World, id: BookingId, row: Booking, t: TripId)
    requires t < |w.trips| && id < |w.bookings|
    requires row.tripId == w.bookings[id].tripId < |w.trips|
    ensures var saved := w.(bookings := w.bookings[id := row]);
            var a, b := ViewOf(w, t), ViewOf(Recompute(saved, row.tripId).world, t);
            && b.seats + Held(w.bookings[id], t) == a.seats + Held(row, t)
            && b.trip == (if t == row.tripId then a.trip.(status := Derived(View(a.trip, b.seats))) else a.trip)
            && Life(Recompute(saved, row.tripId).sent, t)
                 == if t == row.tripId then ReadyNotice(t, a.trip.status, b.trip.status) else []
  {
    SeatsAfterSave(w.bookings, id, row, t);
  }

  lemma AcceptIsAMove(w: World, id: BookingId, now: Instant, t: TripId) returns (m: Move)
    requires Linked(w) && t < |w.trips|
    ensures var o := Accept(w, id, now); Moved(t, m, ViewOf(w, t), ViewOf(o.world, t), Life(o.sent, t))
    ensures m == (if Accept(w, id, now).response.Ok? && w.bookings[id].tripId == t
                  then Take(w.bookings[id].seats) else Stay)
  {
    m := Stay;
    if Accept(w, id, now).response.Ok? {
      m := TakingIsAMove(w, id, now, t);
    }
  }

  lemma TakingIsAMove(w: World, id: BookingId, now: Instant, t: TripId) returns (m: Move)
    requires t < |w.trips| && Accept(w, id, now).response.Ok?
    ensures var o := Accept(w, id, now); Moved(t, m, ViewOf(w, t), ViewOf(o.world, t), Life(o.sent, t))
    ensures m == if w.bookings[id].tripId == t then Take(w.bookings[id].seats) else Stay
  {
    var row := w.bookings[id].(status := BookingStatus.Confirmed, decidedAt := Some(now));
    SaveAndRecompute(w, id, row, t);
    OneOtherNotice(Recompute(Decide(w, id, BookingStatus.Confirmed, now), row.tripId).sent, BookingAccepted(id), t);
    m := if row.tripId == t then Take(row.seats) else Stay;
  }

  lemma OneOtherNotice(sent: seq<Notification>, n: Notification, t: TripId)
    requires !IsLife(n, t)
    ensures Life(sent + [n], t) == Life(sent, t)
  {
    LifeStep(sent, sent + [n], n, true, t);
  }

  lemma CancelSeatsIsAMove(w: World, id: BookingId, now: Instant, t: TripId) returns (m: Move)
    requires Linked(w) && t < |w.trips|
    ensures var o := CancelSeats(w, id, now); Moved(t, m, ViewOf(w, t), ViewOf(o.world, t), Life(o.sent, t))
    ensures m == (if id < |w.bookings| && w.bookings[id].status == BookingStatus.Confirmed && w.bookings[id].tripId == t
                  then Free(w.bookings[id].seats) else Stay)
  {
    m := Stay;
    if CancelSeats(w, id, now).response.Ok? {
      assert w.bookings[id] in w.bookings;
      if w.bookings[id].status == BookingStatus.Confirmed {
        m := FreeingIsAMove(w, id, now, t);
      } else {
        SeatsAfterSave(w.bookings, id, Decide(w, id, BookingStatus.CancelledByPassenger, now).bookings[id], t);
      }
    }
  }

  lemma FreeingIsAMove(w: World, id: BookingId, now: Instant, t: TripId) returns (m: Move)
    requires t < |w.trips| && id < |w.bookings|
    requires w.bookings[id].status == BookingStatus.Confirmed && w.bookings[id].tripId < |w.trips|
    ensures var o := CancelSeats(w, id, now); Moved(t, m, ViewOf(w, t), ViewOf(o.world, t), Life(o.sent, t))
    ensures m == if w.bookings[id].tripId == t then Free(w.bookings[id].seats) else Stay
  {
    var row := w.bookings[id].(status := BookingStatus.CancelledByPassenger, decidedAt := Some(now));
    SaveAndRecompute(w, id, row, t);
    SeatFreedIsNoLife(w, row.tripId,
      Recompute(Decide(w, id, BookingStatus.CancelledByPassenger, now), row.tripId).sent, t);
    m := if row.tripId == t then Free(row.seats) else Stay;
  }

  lemma SeatFreedIsNoLife(w: World, tripId: TripId, sent: seq<Notification>, t: TripId)
    ensures Life(sent + SeatFreed(w, tripId), t) == Life(sent, t)
  {
    LifeConcat(sent, SeatFreed(w, tripId), t);
    NoLife(SeatFreed(w, tripId), t);
  }

  lemma RequestStays(w: World, call: Call, t: TripId)
    requires call.RequestSeats? && t < |w.trips|
    ensures var o := Apply(w, call); Moved(t, Stay, ViewOf(w, t), ViewOf(o.world, t), Life(o.sent, t))
  {
    var o := Apply(w, call);
    if o.response.Ok? {
      SeatsAfterInsert(w.bookings, o.world.bookings[|w.bookings|], t);
    }
  }

  /** Rejecting a booking and flipping a paid flag leave every contribution to the seats as it was. */
  lemma RejectOrPaidStays(w: World, call: Call, t: TripId)
    requires (call.RejectBooking? || call.SetPaid?) && t < |w.trips|
    ensures var o := Apply(w, call); Moved(t, Stay, ViewOf(w, t), ViewOf(o.world, t), Life(o.sent, t))
  {
    var o := Apply(w, call);
    if o.response.Ok? {
      var id := call.bookingId;
      SeatsAfterSave(w.bookings, id, o.world.bookings[id], t);
      assert o.world.bookings == w.bookings[id := o.world.bookings[id]];
      NoLife(o.sent, t);
    }
  }

  // ---- every call ----

  /** An update that is stored, whether or not replacing the stops then fails. */
  predicate StoresUpdate(w: World, call: Call) {
    call.UpdateTrip? && UpdateFault(w, call.tripId, call.patch).None?
  }

  /** The service refines the per-trip transition system: any call is one move of any existing trip. */
  lemma CallIsAMove(w: World, call: Call, t: TripId) returns (m: Move)
    requires Linked(w) && t < |w.trips|
    ensures var o := Apply(w, call);
            t < |o.world.trips| && Moved(t, m, ViewOf(w, t), ViewOf(o.world, t), Life(o.sent, t))
    ensures m.Take? ==> call.AcceptBooking?
    ensures m.Free? ==> call.CancelBooking?
    ensures m.Edit? <==> StoresUpdate(w, call) && call.tripId == t
    ensures m.Edit? ==> Apply(w, call).world.trips[t] == Patched(w.trips[t], call.patch)
    ensures m.Expire? ==> call.SweepExpired? && Expires(w, t, call.now)
    ensures m.DriverConfirms? ==> call.ConfirmTrip?
  {
    if call.SweepExpired? || call.SendReminders? {
      m := JobIsAMove(w, call, t);
    } else if call.UpdateTrip? {
      m := UpdateIsAMove(w, call, t);
    } else if call.ConfirmTrip? || call.CancelTrip? {
      m := DriverDecides(w, call, t);
    } else if call.CreateTrip? || call.JoinWaitlist? || call.LeaveWaitlist? {
      m := Stay;
      WaitlistOrCreateStays(w, call, t);
    } else {
      m := BookingCallIsAMove(w, call, t);
    }
  }

  lemma JobIsAMove(w: World, call: Call, t: TripId) returns (m: Move)
    requires call.SweepExpired? || call.SendReminders?
    requires t < |w.trips|
    ensures var o := Apply(w, call);
            t < |o.world.trips| && Moved(t, m, ViewOf(w, t), ViewOf(o.world, t), Life(o.sent, t))
    ensures m.Stay? || (call.SweepExpired? && (m.Depart? || (m.Expire? && Expires(w, t, call.now))))
  {
    if call.SweepExpired? {
      m := SweepIsAMove(w, call.now, t);
    } else {
      m := Stay;
      RemindersAreReminders(w, call.now, |w.trips|);
      NoLife(RemindersBelow(w, call.now, |w.trips|), t);
    }
  }

  lemma BookingCallIsAMove(w: World, call: Call, t: TripId) returns (m: Move)
    requires call.RequestSeats? || call.AcceptBooking? || call.RejectBooking? || call.CancelBooking? || call.SetPaid?
    requires Linked(w) && t < |w.trips|
    ensures var o := Apply(w, call);
            t < |o.world.trips| && Moved(t, m, ViewOf(w, t), ViewOf(o.world, t), Life(o.sent, t))
    ensures m.Stay? || (m.Take? && call.AcceptBooking?) || (m.Free? && call.CancelBooking?)
  {
    if call.AcceptBooking? {
      m := AcceptIsAMove(w, call.bookingId, call.now, t);
    } else if call.CancelBooking? {
      m := CancelSeatsIsAMove(w, call.bookingId, call.now, t);
    } else {
      m := Stay;
      SeatsStay(w, call, t);
    }
  }

  lemma SeatsStay(w: World, call: Call, t: TripId)
    requires call.RequestSeats? || call.RejectBooking? || call.SetPaid?
    requires t < |w.trips|
    ensures var o := Apply(w, call);
            t < |o.world.trips| && Moved(t, Stay, ViewOf(w, t), ViewOf(o.world, t), Life(o.sent, t))
  {
    if call.RequestSeats? {
      RequestStays(w, call, t);
    } else {
      RejectOrPaidStays(w, call, t);
    }
  }

  lemma WaitlistOrCreateStays(w: World, call: Call, t: TripId)
    requires call.CreateTrip? || call.JoinWaitlist? || call.LeaveWaitlist?
    requires t < |w.trips|
    ensures var o := Apply(w, call);
            t < |o.world.trips| && Moved(t, Stay, ViewOf(w, t), ViewOf(o.world, t), Life(o.sent, t))
  {
  }

  lemma UpdateIsAMove(w: World, call: Call, t: TripId) returns (m: Move)
    requires call.UpdateTrip? && t < |w.trips|
    ensures var o := Apply(w, call);
            t < |o.world.trips| && Moved(t, m, ViewOf(w, t), ViewOf(o.world, t), Life(o.sent, t))
    ensures m == if StoresUpdate(w, call) && call.tripId == t then Edit else Stay
    ensures m.Edit? ==> Apply(w, call).world.trips[t] == Patched(w.trips[t], call.patch)
  {
    m := if StoresUpdate(w, call) && call.tripId == t then Edit else Stay;
  }

  lemma DriverDecides(w: World, call: Call, t: TripId) returns (m: Move)
    requires call.ConfirmTrip? || call.CancelTrip?
    requires t < |w.trips|
    ensures var o := Apply(w, call);
            t < |o.world.trips| && Moved(t, m, ViewOf(w, t), ViewOf(o.world, t), Life(o.sent, t))
    ensures m.Stay? || (m.DriverConfirms? && call.ConfirmTrip?) || (m.DriverCancels? && call.CancelTrip?)
  {
    m := if call.tripId != t || Apply(w, call).response.Err? then Stay
         else if call.ConfirmTrip? then DriverConfirms else DriverCancels;
  }
}

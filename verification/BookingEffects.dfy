/** What the calls on bookings do, column by column: the checks they make, in order, the rows they leave, and
 * whom they tell.
 */
module BookingEffects {
  import opened Domain
  import opened Seats
  import opened WaitlistQueue
  import opened Lifecycle
  import opened Moves
  import opened Checks

  ghost predicate TakesBookings(status: TripStatus) {
    status in {TripStatus.Open, TripStatus.Full, TripStatus.Ready}
  }

  /** The passenger has a pending or confirmed booking on the trip. */
  ghost predicate BookedOn(w: World, t: TripId, passengerId: UserId) {
    exists b :: b in w.bookings && b.tripId == t && b.passengerId == passengerId
                && b.status in {BookingStatus.Pending, BookingStatus.Confirmed}
  }

  lemma ActiveIsBooked(w: World, t: TripId, passengerId: UserId)
    ensures HasActiveBooking(w.bookings, t, passengerId) <==> BookedOn(w, t, passengerId)
  {
    if BookedOn(w, t, passengerId) {
      var b :| b in w.bookings && b.tripId == t && b.passengerId == passengerId
               && b.status in {BookingStatus.Pending, BookingStatus.Confirmed};
      var i :| 0 <= i < |w.bookings| && w.bookings[i] == b;
    }
    if HasActiveBooking(w.bookings, t, passengerId) {
      var i :| 0 <= i < |w.bookings| && w.bookings[i].tripId == t && w.bookings[i].passengerId == passengerId
               && (w.bookings[i].status == BookingStatus.Pending || w.bookings[i].status == BookingStatus.Confirmed);
      assert w.bookings[i] in w.bookings;
    }
  }

  /** A request needs a trip of another driver that takes bookings, no active booking of its own, and seats for
      all it asks for; it then adds a pending, unpaid row and tells the driver. */
  lemma RequestEffect(w: World, call: Call)
    requires call.RequestSeats?
    ensures var o, t, passenger := Apply(w, call), call.tripId, call.passengerId;
            var found := t < |w.trips|;
            var checks := Passed
              .Check(found, NotFound(TripRow))
              .Check(found ==> w.trips[t].driverId != passenger, Conflict(OwnTrip))
              .Check(found ==> TakesBookings(w.trips[t].status), Conflict(NotBookable))
              .Check(!BookedOn(w, t, passenger), Conflict(AlreadyBooked))
              .Check(found ==> ConfirmedSeats(w.bookings, t) + call.seats <= w.trips[t].maxPassengers,
                     Conflict(NoSeats));
            && o.response == checks.Answer(|w.bookings|)
            && (checks.Failed? ==> o.world == w && o.sent == [])
            && (checks.Passed? ==>
                  && o.sent == [BookingRequested(|w.bookings|)]
                  && o.world == w.(bookings :=
                       w.bookings + [Booking(t, passenger, call.seats, BookingStatus.Pending, false, None)]))
  {
    ActiveIsBooked(w, call.tripId, call.passengerId);
  }

  /** What a trip's status becomes with this many confirmed seats. */
  ghost predicate StatusFor(before: Trip, after: Trip, seats: int) {
    && after == before.(status := after.status)
    && (TakesBookings(before.status) ==>
          && (after.status == TripStatus.Full <==> before.maxPassengers <= seats)
          && (after.status == TripStatus.Ready <==> before.minPassengers <= seats < before.maxPassengers)
          && (after.status == TripStatus.Open <==> seats < before.minPassengers && seats < before.maxPassengers))
    && (!TakesBookings(before.status) ==> after.status == before.status)
  }

  ghost predicate BecomesReady(before: Trip, after: Trip) {
    before.status != TripStatus.Ready && after.status == TripStatus.Ready
  }

  /** An accept needs a pending booking on a trip that takes bookings and has the seats; it then confirms and
      dates the row, gives the trip the status of its seats, and tells of READY first. */
  lemma AcceptEffect(w: World, call: Call)
    requires call.AcceptBooking?
    ensures var o, id := Apply(w, call), call.bookingId;
            var found := id < |w.bookings|;
            var t := if found then w.bookings[id].tripId else 0;
            var trip := found && t < |w.trips|;
            var checks := Passed
              .Check(found, NotFound(BookingRow))
              .Check(found ==> w.bookings[id].status == BookingStatus.Pending, Conflict(NotPending))
              .Check(trip, NotFound(TripRow))
              .Check(trip ==> TakesBookings(w.trips[t].status), Conflict(NotBookable))
              .Check(trip ==> ConfirmedSeats(w.bookings, t) + w.bookings[id].seats <= w.trips[t].maxPassengers,
                     Conflict(NoSeats));
            && o.response == checks.Answer(id)
            && (checks.Failed? ==> o.world == w && o.sent == [])
            && (checks.Passed? ==>
                  && |o.world.trips| == |w.trips|
                  && StatusFor(w.trips[t], o.world.trips[t], ConfirmedSeats(w.bookings, t) + w.bookings[id].seats)
                  && o.world == w.(trips := w.trips[t := o.world.trips[t]], bookings := w.bookings[id :=
                       w.bookings[id].(status := BookingStatus.Confirmed, decidedAt := Some(call.now))])
                  && o.sent == (if BecomesReady(w.trips[t], o.world.trips[t]) then [TripReady(t)] else [])
                               + [BookingAccepted(id)])
  {
    var id := call.bookingId;
    if Apply(w, call).response.Ok? {
      var row := w.bookings[id].(status := BookingStatus.Confirmed, decidedAt := Some(call.now));
      SeatsAfterSave(w.bookings, id, row, row.tripId);
    }
  }

  /** A rejection needs a pending booking; it dates the row and tells the passenger. */
  lemma RejectEffect(w: World, call: Call)
    requires call.RejectBooking?
    ensures var o, id := Apply(w, call), call.bookingId;
            var found := id < |w.bookings|;
            var checks := Passed
              .Check(found, NotFound(BookingRow))
              .Check(found ==> w.bookings[id].status == BookingStatus.Pending, Conflict(NotPending));
            && o.response == checks.Answer(id)
            && (checks.Failed? ==> o.world == w && o.sent == [])
            && (checks.Passed? ==>
                  && o.sent == [BookingRejected(id)]
                  && o.world == w.(bookings := w.bookings[id :=
                       w.bookings[id].(status := BookingStatus.Rejected, decidedAt := Some(call.now))]))
  {
  }

  /** The paid flag is a column of confirmed bookings. */
  lemma SetPaidEffect(w: World, call: Call)
    requires call.SetPaid?
    ensures var o, id := Apply(w, call), call.bookingId;
            var found := id < |w.bookings|;
            var checks := Passed
              .Check(found, NotFound(BookingRow))
              .Check(found ==> w.bookings[id].status == BookingStatus.Confirmed, Conflict(NotConfirmed));
            && o.response == checks.Answer(id) && o.sent == []
            && (checks.Failed? ==> o.world == w)
            && (checks.Passed? ==> o.world == w.(bookings := w.bookings[id := w.bookings[id].(paid := call.paid)]))
  {
  }

  // ---- cancelling, and the waitlist ----

  /** Everybody waiting for the trip. */
  ghost function Waiting(w: World, t: TripId): set<WaitlistEntry> {
    set e | e in w.waitlist && e.tripId == t
  }

  /** The notice is for the waiting passenger with this many others ahead, and says so. */
  ghost predicate TellsInTurn(w: World, t: TripId, n: Notification, k: nat) {
    n.SeatAvailable? && n.position == k + 1
    && exists e :: e in Waiting(w, t) && e.id == n.entryId && |AheadOf(w.waitlist, e)| == k
  }

  /** One notice for each of them, in turn. */
  ghost predicate TellsTheWaitlist(w: World, t: TripId, notices: seq<Notification>) {
    && |notices| == |Waiting(w, t)|
    && (forall k: nat :: k < |notices| ==> TellsInTurn(w, t, notices[k], k))
    && (forall e :: e in Waiting(w, t) ==> SeatAvailable(e.id, |AheadOf(w.waitlist, e)| + 1) in notices)
  }

  lemma QueueIsTold(w: World, t: TripId)
    requires Linked(w)
    ensures TellsTheWaitlist(w, t, SeatFreed(w, t))
  {
    var queue, notices := Queue(w.waitlist, t), SeatFreed(w, t);
    OrderedIsQuery(w.waitlist, {t});
    QueueHasNoRepeats(w.waitlist, t);
    assert Waiting(w, t) == set e | e in queue;
    forall k: nat | k < |queue| ensures TellsInTurn(w, t, notices[k], k) {
      QueuePositionIsRank(w.waitlist, t, k);
      assert queue[k] in queue;
      RankIsCount(w.waitlist, queue[k]);
    }
    forall e | e in Waiting(w, t) ensures SeatAvailable(e.id, |AheadOf(w.waitlist, e)| + 1) in notices {
      assert e in queue;
      var k: nat :| k < |queue| && queue[k] == e;
      QueuePositionIsRank(w.waitlist, t, k);
      RankIsCount(w.waitlist, e);
      assert notices[k] == SeatAvailable(e.id, k + 1);
    }
  }

  /** A passenger may cancel a pending or confirmed booking. */
  lemma CancelRefusals(w: World, call: Call)
    requires Linked(w) && call.CancelBooking?
    ensures var o, id := Apply(w, call), call.bookingId;
            var found := id < |w.bookings|;
            var checks := Passed
              .Check(found, NotFound(BookingRow))
              .Check(found ==> w.bookings[id].status in {BookingStatus.Pending, BookingStatus.Confirmed},
                     Conflict(NotCancellable));
            && o.response == checks.Answer(id)
            && (checks.Failed? ==> o.world == w && o.sent == [])
  {
    assert call.bookingId < |w.bookings| ==> w.bookings[call.bookingId] in w.bookings;
  }

  function CancelledAt(b: Booking, now: Instant): Booking {
    b.(status := BookingStatus.CancelledByPassenger, decidedAt := Some(now))
  }

  /** Cancelling a pending booking dates the row and is told to nobody. */
  lemma WithdrawalEffect(w: World, call: Call)
    requires call.CancelBooking? && call.bookingId < |w.bookings|
    requires w.bookings[call.bookingId].status == BookingStatus.Pending
    ensures var o, id := Apply(w, call), call.bookingId;
            && o.world == w.(bookings := w.bookings[id := CancelledAt(w.bookings[id], call.now)])
            && o.sent == []
  {
  }

  /** Cancelling a confirmed one gives its seats back: the trip gets the status of the remaining ones. */
  lemma SeatsFreedEffect(w: World, call: Call)
    requires Linked(w) && call.CancelBooking? && call.bookingId < |w.bookings|
    requires w.bookings[call.bookingId].status == BookingStatus.Confirmed
    ensures var o, id := Apply(w, call), call.bookingId;
            var t := w.bookings[id].tripId;
            && t < |w.trips| && |o.world.trips| == |w.trips|
            && StatusFor(w.trips[t], o.world.trips[t], ConfirmedSeats(w.bookings, t) - w.bookings[id].seats)
            && o.world == w.(trips := w.trips[t := o.world.trips[t]],
                             bookings := w.bookings[id := CancelledAt(w.bookings[id], call.now)])
  {
    var id := call.bookingId;
    assert w.bookings[id] in w.bookings;
    SeatsAfterSave(w.bookings, id, CancelledAt(w.bookings[id], call.now), w.bookings[id].tripId);
  }

  /** After READY, if the trip has become that, everybody waiting for it is told in turn. */
  ghost predicate TellsReadyAndWaitlist(w: World, t: TripId, ready: bool, sent: seq<Notification>) {
    if ready then sent != [] && sent[0] == TripReady(t) && TellsTheWaitlist(w, t, sent[1..])
    else TellsTheWaitlist(w, t, sent)
  }

  lemma QueueIsToldAfterReady(w: World, t: TripId, ready: bool, sent: seq<Notification>)
    requires Linked(w) && sent == (if ready then [TripReady(t)] + SeatFreed(w, t) else SeatFreed(w, t))
    ensures TellsReadyAndWaitlist(w, t, ready, sent)
  {
    QueueIsTold(w, t);
    if ready {
      assert sent[1..] == SeatFreed(w, t);
    }
  }

  /** Cancelling a confirmed booking tells the waitlist of its trip, and nobody else but of READY. */
  lemma SeatsFreedAreTold(w: World, call: Call)
    requires Linked(w) && call.CancelBooking? && call.bookingId < |w.bookings|
    requires w.bookings[call.bookingId].status == BookingStatus.Confirmed
    ensures var o, t := Apply(w, call), w.bookings[call.bookingId].tripId;
            && t < |w.trips| && |o.world.trips| == |w.trips|
            && TellsReadyAndWaitlist(w, t, BecomesReady(w.trips[t], o.world.trips[t]), o.sent)
  {
    var o, t := Apply(w, call), w.bookings[call.bookingId].tripId;
    SentIsReadyThenQueue(w, call);
    QueueIsToldAfterReady(w, t, BecomesReady(w.trips[t], o.world.trips[t]), o.sent);
  }

  lemma SentIsReadyThenQueue(w: World, call: Call)
    requires Linked(w) && call.CancelBooking? && call.bookingId < |w.bookings|
    requires w.bookings[call.bookingId].status == BookingStatus.Confirmed
    ensures var o, t := Apply(w, call), w.bookings[call.bookingId].tripId;
            && t < |w.trips| && |o.world.trips| == |w.trips|
            && if BecomesReady(w.trips[t], o.world.trips[t]) then o.sent == [TripReady(t)] + SeatFreed(w, t)
               else o.sent == SeatFreed(w, t)
  {
    assert w.bookings[call.bookingId] in w.bookings;
  }

  /** The waitlist hears of nothing but the cancellation of a confirmed booking. */
  lemma OthersTellNobody(w: World, call: Call)
    requires !(call.CancelBooking? && call.bookingId < |w.bookings|
               && w.bookings[call.bookingId].status == BookingStatus.Confirmed)
    ensures forall n :: n in Apply(w, call).sent ==> !n.SeatAvailable?
  {
    if call.SweepExpired? {
      SweepTellsNobody(w, call.now, |w.trips|);
    } else if call.SendReminders? {
      RemindersAreReminders(w, call.now, |w.trips|);
    }
  }

  lemma {:induction false} SweepTellsNobody(w: World, now: Instant, n: nat)
    requires n <= |w.trips|
    ensures forall x :: x in CancelledBelow(w, now, n) ==> x.TripCancelled?
    ensures forall x :: x in CompletedBelow(w, now, n) ==> x.TripCompleted?
  {
    if n > 0 {
      SweepTellsNobody(w, now, n - 1);
    }
  }

  // ---- joining and leaving ----

  ghost predicate WaitsFor(w: World, t: TripId, passengerId: UserId) {
    exists e :: e in w.waitlist && e.tripId == t && e.passengerId == passengerId
  }

  ghost function JoinChecks(w: World, call: Call): Checks
    requires call.JoinWaitlist?
  {
    var t, passenger := call.tripId, call.passengerId;
    var found := t < |w.trips|;
    Passed
      .Check(found, NotFound(TripRow))
      .Check(found ==> w.trips[t].driverId != passenger, Conflict(OwnTrip))
      .Check(found ==> w.trips[t].status == TripStatus.Full, Conflict(NotFull))
      .Check(found ==> call.seats <= w.trips[t].maxPassengers, Conflict(AboveCapacity))
      .Check(!WaitsFor(w, t, passenger), Conflict(AlreadyWaiting))
      .Check(!BookedOn(w, t, passenger), Conflict(AlreadyBooked))
      .Check(forall e :: e in w.waitlist ==> e.id != call.entryId, DatabaseError)
  }

  lemma JoinRefusals(w: World, call: Call)
    requires call.JoinWaitlist?
    ensures var o, checks := Apply(w, call), JoinChecks(w, call);
            && (checks.Passed? <==> o.response.Ok?)
            && (checks.Failed? ==> o.response == checks.Answer(0) && o.world == w)
  {
    ActiveIsBooked(w, call.tripId, call.passengerId);
    UsedKeys(w, call.entryId);
  }

  lemma UsedKeys(w: World, id: nat)
    ensures KeyInUse(w.waitlist, id) <==> !forall e :: e in w.waitlist ==> e.id != id
  {
    if e :| e in w.waitlist && e.id == id {
      var i :| 0 <= i < |w.waitlist| && w.waitlist[i] == e;
    }
  }

  /** A passenger may wait for a FULL trip of another driver that could take the party, once, and without an
      active booking on it.  The answer is one more than the number of those who are ahead. */
  lemma JoinEffect(w: World, call: Call)
    requires Linked(w) && call.JoinWaitlist?
    ensures var o, checks := Apply(w, call), JoinChecks(w, call);
            var entry := WaitlistEntry(call.entryId, call.tripId, call.passengerId, call.seats, call.now);
            && o.sent == []
            && o.response == checks.Answer(1 + |AheadOf(w.waitlist, entry)|)
            && o.world == (if checks.Passed? then w.(waitlist := w.waitlist + [entry]) else w)
  {
    JoinRefusals(w, call);
    var entry := WaitlistEntry(call.entryId, call.tripId, call.passengerId, call.seats, call.now);
    if Apply(w, call).response.Ok? {
      KeptUnique(w, call, entry);
      JoinedIsCounted(w.waitlist, entry);
    }
  }

  lemma KeptUnique(w: World, call: Call, entry: WaitlistEntry)
    requires Linked(w) && call.JoinWaitlist? && Apply(w, call).response.Ok?
    requires entry == WaitlistEntry(call.entryId, call.tripId, call.passengerId, call.seats, call.now)
    ensures UniqueRows(w.waitlist + [entry])
  {
    assert forall i :: 0 <= i < |w.waitlist| ==> w.waitlist[i] in w.waitlist;
  }

  /** Whoever joins no earlier than the others of the trip, and with a larger key, is behind all of them. */
  lemma JoinsAtTheEnd(w: World, call: Call)
    requires Linked(w) && call.JoinWaitlist? && Apply(w, call).response.Ok?
    requires forall e :: e in Waiting(w, call.tripId) ==> e.createdAt <= call.now && e.id < call.entryId
    ensures Apply(w, call).response == Ok(1 + |Waiting(w, call.tripId)|)
  {
    JoinEffect(w, call);
    var entry := WaitlistEntry(call.entryId, call.tripId, call.passengerId, call.seats, call.now);
    assert AheadOf(w.waitlist, entry) == Waiting(w, call.tripId);
  }

  /** Leaving takes the passenger's entry for the trip off the table, and no other. */
  lemma LeaveEffect(w: World, call: Call)
    requires Linked(w) && call.LeaveWaitlist?
    ensures var o, t, passenger := Apply(w, call), call.tripId, call.passengerId;
            var checks := Passed.Check(WaitsFor(w, t, passenger), NotFound(WaitlistRow));
            && o.sent == [] && o.response == checks.Answer(0)
            && o.world == w.(waitlist := o.world.waitlist)
            && (checks.Failed? ==> o.world == w)
            && (forall e :: e in o.world.waitlist <==>
                  e in w.waitlist && !(e.tripId == t && e.passengerId == passenger))
            && (checks.Passed? ==> |o.world.waitlist| == |w.waitlist| - 1)
  {
    var found := EntryIndex(w.waitlist, call.tripId, call.passengerId);
    if found.Some? {
      assert w.waitlist[found.value] in w.waitlist;
      var after := Apply(w, call).world.waitlist;
      forall e ensures e in after <==>
          e in w.waitlist && !(e.tripId == call.tripId && e.passengerId == call.passengerId)
      {
        if e in w.waitlist {
          var i :| 0 <= i < |w.waitlist| && w.waitlist[i] == e;
          assert i < found.value ==> after[i] == e;
          assert found.value < i ==> after[i - 1] == e;
        }
      }
    }
  }
}

/** What happens to one booking row over a run. */
module BookingRows {
  import opened Domain
  import opened Lifecycle

  /** The only changes a call can make to a booking: deciding a pending one, cancelling a confirmed one,
      and flipping the paid flag of a confirmed one. */
  ghost predicate RowStep(call: Call, b: Booking, b': Booking) {
    b' == b
    || (b.status == BookingStatus.Pending
        && ((call.AcceptBooking? && b' == b.(status := BookingStatus.Confirmed, decidedAt := Some(call.now)))
            || (call.RejectBooking? && b' == b.(status := BookingStatus.Rejected, decidedAt := Some(call.now)))
            || (call.CancelBooking?
                && b' == b.(status := BookingStatus.CancelledByPassenger, decidedAt := Some(call.now)))))
    || (b.status == BookingStatus.Confirmed
        && ((call.CancelBooking? && b' == b.(status := BookingStatus.CancelledByPassenger, decidedAt := Some(call.now)))
            || (call.SetPaid? && b' == b.(paid := call.paid))))
  }

  lemma CallIsARowStep(w: World, call: Call, id: BookingId)
    requires id < |w.bookings|
    ensures var w' := Apply(w, call).world;
            && |w.bookings| <= |w'.bookings| && RowStep(call, w.bookings[id], w'.bookings[id])
            && (w'.bookings[id] != w.bookings[id] ==>
                  (call.AcceptBooking? || call.RejectBooking? || call.CancelBooking? || call.SetPaid?)
                  && call.bookingId == id)
  {
  }

  predicate IsHeld(b: Booking) {
    b.status == BookingStatus.Pending || b.status == BookingStatus.Confirmed
  }

  /** A decision has a date exactly when it was made, and only seats once confirmed were ever paid. */
  predicate RowSound(b: Booking) {
    (b.status == BookingStatus.Pending <==> b.decidedAt.None?)
    && (b.paid ==> b.status == BookingStatus.Confirmed || b.status == BookingStatus.CancelledByPassenger)
  }

  predicate SamePlace(a: Booking, b: Booking) {
    a.tripId == b.tripId && a.passengerId == b.passengerId
  }

  /** No passenger holds two bookings on one trip. */
  ghost predicate RowsSound(bookings: seq<Booking>) {
    && (forall i :: 0 <= i < |bookings| ==> RowSound(bookings[i]))
    && (forall i, j :: 0 <= i < j < |bookings| && SamePlace(bookings[i], bookings[j]) ==>
          !(IsHeld(bookings[i]) && IsHeld(bookings[j])))
  }

  lemma RequestKeepsRows(w: World, call: Call)
    requires call.RequestSeats? && RowsSound(w.bookings)
    ensures RowsSound(Apply(w, call).world.bookings)
  {
    var o := Apply(w, call);
    if o.response.Ok? {
      assert forall i ::
        0 <= i < |w.bookings| && w.bookings[i].tripId == call.tripId && w.bookings[i].passengerId == call.passengerId
        ==> !IsHeld(w.bookings[i]);
    }
  }

  lemma CallKeepsRowCount(w: World, call: Call)
    requires !call.RequestSeats?
    ensures |Apply(w, call).world.bookings| == |w.bookings|
  {
  }

  lemma CallKeepsRowsSound(w: World, call: Call)
    requires RowsSound(w.bookings)
    ensures RowsSound(Apply(w, call).world.bookings)
  {
    if call.RequestSeats? {
      RequestKeepsRows(w, call);
    } else {
      CallKeepsRowCount(w, call);
      var after := Apply(w, call).world.bookings;
      forall i | 0 <= i < |w.bookings| ensures RowStep(call, w.bookings[i], after[i]) {
        CallIsARowStep(w, call, i);
      }
      forall i, j | 0 <= i < j < |after| && SamePlace(after[i], after[j])
        ensures !(IsHeld(after[i]) && IsHeld(after[j])) {
        assert RowStep(call, w.bookings[i], after[i]) && RowStep(call, w.bookings[j], after[j]);
        assert SamePlace(w.bookings[i], w.bookings[j]);
      }
    }
  }

  /** In every run a passenger holds at most one booking per trip, and every row is consistent. */
  lemma {:induction false} EveryRunRowsSound(vehicles: seq<Vehicle>, concerts: seq<Concert>, calls: seq<Call>)
    ensures RowsSound(After(Fresh(vehicles, concerts), calls).bookings)
  {
    if calls != [] {
      EveryRunRowsSound(vehicles, concerts, calls[..|calls| - 1]);
      CallKeepsRowsSound(After(Fresh(vehicles, concerts), calls[..|calls| - 1]), calls[|calls| - 1]);
    }
  }

  /** REJECTED and CANCELLED_BY_PASSENGER are final. */
  lemma {:induction false} DecidedAgainstIsFinal(w: World, calls: seq<Call>, id: BookingId)
    requires id < |w.bookings| && !IsHeld(w.bookings[id])
    ensures id < |After(w, calls).bookings| && After(w, calls).bookings[id] == w.bookings[id]
  {
    if calls != [] {
      DecidedAgainstIsFinal(w, calls[..|calls| - 1], id);
      CallIsARowStep(After(w, calls[..|calls| - 1]), calls[|calls| - 1], id);
    }
  }
}

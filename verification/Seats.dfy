/** Confirmed seats of a trip: the sum every capacity rule is about. */
module Seats {
  import opened Domain

  /** What one booking row contributes to the confirmed seats of a trip. */
  function Held(b: Booking, tripId: TripId): nat {
    if b.tripId == tripId && b.status == BookingStatus.Confirmed then b.seats else 0
  }

  function ConfirmedSeats(bookings: seq<Booking>, tripId: TripId): nat {
    if bookings == [] then 0
    else ConfirmedSeats(bookings[..|bookings| - 1], tripId) + Held(bookings[|bookings| - 1], tripId)
  }

  lemma SeatsAfterInsert(bookings: seq<Booking>, b: Booking, tripId: TripId)
    ensures ConfirmedSeats(bookings + [b], tripId) == ConfirmedSeats(bookings, tripId) + Held(b, tripId)
  {
    assert (bookings + [b])[..|bookings|] == bookings;
  }

  /** Confirmed bookings of the trip count with their seats, and no others count. */
  lemma SeatsAreThoseOfConfirmed(bookings: seq<Booking>, b: Booking, tripId: TripId)
    ensures ConfirmedSeats([], tripId) == 0
    ensures b.tripId == tripId && b.status == BookingStatus.Confirmed ==>
      ConfirmedSeats(bookings + [b], tripId) == ConfirmedSeats(bookings, tripId) + b.seats
    ensures b.tripId != tripId || b.status != BookingStatus.Confirmed ==>
      ConfirmedSeats(bookings + [b], tripId) == ConfirmedSeats(bookings, tripId)
  {
    SeatsAfterInsert(bookings, b, tripId);
  }

  /** Saving one row changes the sum by exactly the difference of the two row contributions. */
  lemma {:induction false} SeatsAfterSave(bookings: seq<Booking>, id: BookingId, b: Booking, tripId: TripId)
    requires id < |bookings|
    ensures ConfirmedSeats(bookings[id := b], tripId) + Held(bookings[id], tripId)
         == ConfirmedSeats(bookings, tripId) + Held(b, tripId)
  {
    var last := |bookings| - 1;
    if id == last {
      assert bookings[id := b][..last] == bookings[..last];
    } else {
      SeatsAfterSave(bookings[..last], id, b, tripId);
      assert bookings[id := b][..last] == bookings[..last][id := b];
    }
  }

  /** No booking refers to a trip without a row, so such a trip has no confirmed seat. */
  lemma {:induction false} NoSeatsWithoutBookings(bookings: seq<Booking>, tripId: TripId)
    requires forall i :: 0 <= i < |bookings| ==> bookings[i].tripId != tripId
    ensures ConfirmedSeats(bookings, tripId) == 0
  {
    if bookings != [] {
      NoSeatsWithoutBookings(bookings[..|bookings| - 1], tripId);
    }
  }
}

/** The live price of a trip along a run. */
module Prices {
  import opened Domain
  import opened Lifecycle
  import opened Moves
  import opened Runs
  import opened Bounds
  import opened Pricing

  function LivePriceOf(v: View): LivePrice
    requires 1 <= v.trip.minPassengers && 1 <= v.trip.maxPassengers
  {
    Calculate(v.trip.pricingMode, v.trip.totalCost, v.trip.minPassengers, v.trip.maxPassengers, v.seats)
  }

  /** Joining the waitlist happens with no seat left, and moves neither seats nor price of any trip. */
  lemma JoinTakesNoSeat(vehicles: seq<Vehicle>, concerts: seq<Concert>, calls: seq<Call>, call: Call, t: TripId)
    requires call.JoinWaitlist? && Apply(After(Fresh(vehicles, concerts), calls), call).response.Ok?
    requires t < |After(Fresh(vehicles, concerts), calls).trips|
    ensures var w := After(Fresh(vehicles, concerts), calls);
            var w' := Apply(w, call).world;
            && ViewOf(w, call.tripId).seats >= w.trips[call.tripId].maxPassengers
            && Sound(ViewOf(w, t)) && t < |w'.trips| && Sound(ViewOf(w', t))
            && ViewOf(w', t).seats == ViewOf(w, t).seats
            && LivePriceOf(ViewOf(w', t)) == LivePriceOf(ViewOf(w, t))
  {
    EveryRunSound(vehicles, concerts, calls);
    var w := After(Fresh(vehicles, concerts), calls);
    assert Sound(ViewOf(w, call.tripId)) && Sound(ViewOf(w, t));
  }

  /** While no stored update lowers a capacity below the seats already confirmed, every live price is inside
      its advertised band. */
  lemma PriceAlwaysInBand(vehicles: seq<Vehicle>, concerts: seq<Concert>, calls: seq<Call>, t: TripId)
    requires EveryCall(EditKeepsCapacity, Fresh(vehicles, concerts), calls)
    requires t < |After(Fresh(vehicles, concerts), calls).trips|
    ensures var v := ViewOf(After(Fresh(vehicles, concerts), calls), t);
            Sound(v) && LivePriceOf(v).upperBound <= LivePriceOf(v).perPerson <= LivePriceOf(v).lowerBound
  {
    EveryRunSound(vehicles, concerts, calls);
    RunWithinCapacityIff(vehicles, concerts, calls);
    var v := ViewOf(After(Fresh(vehicles, concerts), calls), t);
    assert Sound(v);
    PriceWithinBand(v.trip.pricingMode, v.trip.totalCost, v.trip.minPassengers, v.trip.maxPassengers, v.seats);
  }

  /** The call does not edit what the trip is priced by. */
  predicate KeepsTerms(call: Call, t: TripId) {
    call.UpdateTrip? && call.tripId == t ==>
      !call.patch.pricingMode.Present? && !call.patch.totalCost.Present? && !call.patch.minPassengers.Present?
  }

  /** After any run, edits included, no call but an edit of the trip's terms raises its price, unless it frees
      seats; none lowers it, unless it takes seats.  So an accept never makes a ride dearer and a cancellation
      never makes it cheaper. */
  lemma PriceFollowsSeats(vehicles: seq<Vehicle>, concerts: seq<Concert>, calls: seq<Call>, call: Call, t: TripId)
    requires KeepsTerms(call, t)
    requires t < |After(Fresh(vehicles, concerts), calls).trips|
    ensures var w := After(Fresh(vehicles, concerts), calls);
            var w' := Apply(w, call).world;
            && t < |w'.trips| && Sound(ViewOf(w, t)) && Sound(ViewOf(w', t))
            && (!call.CancelBooking? ==> LivePriceOf(ViewOf(w', t)).perPerson <= LivePriceOf(ViewOf(w, t)).perPerson)
            && (!call.AcceptBooking? ==> LivePriceOf(ViewOf(w', t)).perPerson >= LivePriceOf(ViewOf(w, t)).perPerson)
  {
    EveryRunSound(vehicles, concerts, calls);
    var w := After(Fresh(vehicles, concerts), calls);
    CallKeepsSound(w, call);
    var m := CallIsAMove(w, call, t);
    var a, b := ViewOf(w, t), ViewOf(Apply(w, call).world, t);
    assert Sound(a) && Sound(b);
    if a.seats <= b.seats {
      PriceFallsWithSeats(a.trip.pricingMode, a.trip.totalCost, a.trip.minPassengers, a.seats, b.seats);
    } else {
      PriceFallsWithSeats(a.trip.pricingMode, a.trip.totalCost, a.trip.minPassengers, b.seats, a.seats);
    }
  }
}

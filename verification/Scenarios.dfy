/** Concrete runs, the ones included in which a promise that holds under a condition fails without it. */
module Scenarios {
  import opened Domain
  import opened Seats
  import opened Lifecycle
  import opened Moves
  import opened Runs
  import opened Bounds
  import opened Prices
  import opened Notices

  const RIDE := NewTrip(0, 0, SharedTotal, 9000, Eur, 1, 3, 10 * HOUR, 60 * HOUR,
                       Absent, Absent, [])
  const VEHICLES := [Vehicle(5, 4)]
  const CONCERTS := [Concert(80 * HOUR)]
  const RIDE_ROW := Trip(5, 0, 0, SharedTotal, 9000, Eur, 1, 3, 10 * HOUR, 60 * HOUR,
                        false, None, [], TripStatus.Open)
  const SEAT := Booking(0, 6, 1, BookingStatus.Pending, false, None)

  const BOOKED := [CreateTrip(5, RIDE), RequestSeats(0, 6, 1)]
  const CONFIRMED := BOOKED + [AcceptBooking(0, HOUR)] + [ConfirmTrip(0)]

  function AfterBooked(): World {
    World(VEHICLES, CONCERTS, [RIDE_ROW], [SEAT], [])
  }

  function AfterConfirmed(): World {
    World(VEHICLES, CONCERTS, [RIDE_ROW.(status := TripStatus.Confirmed)],
          [SEAT.(status := BookingStatus.Confirmed, decidedAt := Some(HOUR))], [])
  }

  lemma OneMoreCall(w: World, calls: seq<Call>, call: Call)
    ensures After(w, calls + [call]) == Apply(After(w, calls), call).world
    ensures Log(w, calls + [call]) == Log(w, calls) + Apply(After(w, calls), call).sent
  {
    assert (calls + [call])[..|calls|] == calls;
  }

  lemma RideIsBooked()
    ensures After(Fresh(VEHICLES, CONCERTS), BOOKED) == AfterBooked()
  {
    var w := Fresh(VEHICLES, CONCERTS);
    OneMoreCall(w, [], CreateTrip(5, RIDE));
    assert [] + [CreateTrip(5, RIDE)] == [CreateTrip(5, RIDE)];
    OneMoreCall(w, [CreateTrip(5, RIDE)], RequestSeats(0, 6, 1));
    assert BOOKED == [CreateTrip(5, RIDE)] + [RequestSeats(0, 6, 1)];
  }

  lemma RideIsConfirmed()
    ensures After(Fresh(VEHICLES, CONCERTS), CONFIRMED) == AfterConfirmed()
  {
    var w := Fresh(VEHICLES, CONCERTS);
    RideIsBooked();
    OneMoreCall(w, BOOKED, AcceptBooking(0, HOUR));
    OneMoreCall(w, BOOKED + [AcceptBooking(0, HOUR)], ConfirmTrip(0));
    assert ConfirmedSeats(AfterBooked().bookings[..0], 0) == 0;
    assert ConfirmedSeats(AfterConfirmed().bookings[..0], 0) == 0;
  }

  lemma PassengerLeaves()
    ensures var w := Apply(AfterConfirmed(), CancelBooking(0, 2 * HOUR)).world;
            w.trips == AfterConfirmed().trips && |w.bookings| == 1
            && w.bookings[0].status == BookingStatus.CancelledByPassenger
  {
  }

  /** The minimum is a condition for confirming a trip, not for staying confirmed: a passenger of a
      CONFIRMED trip may still cancel. */
  lemma ConfirmedBelowMinimum()
    ensures var w := After(Fresh(VEHICLES, CONCERTS), CONFIRMED + [CancelBooking(0, 2 * HOUR)]);
            |w.trips| == 1 && w.trips[0].status == TripStatus.Confirmed
            && ConfirmedSeats(w.bookings, 0) < w.trips[0].minPassengers
  {
    RideIsConfirmed();
    PassengerLeaves();
    var w := Apply(AfterConfirmed(), CancelBooking(0, 2 * HOUR)).world;
    OneMoreCall(Fresh(VEHICLES, CONCERTS), CONFIRMED, CancelBooking(0, 2 * HOUR));
    assert w.bookings[..0] == [] && ConfirmedSeats(w.bookings, 0) == 0;
  }

  /** The hourly job reminds this trip, exactly once. */
  lemma RideIsReminded()
    ensures var first := CONFIRMED + [SendReminders(36 * HOUR)];
            var calls := first + [SendReminders(37 * HOUR)];
            StaysConfirmed(Fresh(VEHICLES, CONCERTS), CONFIRMED, 36 * HOUR, [SendReminders(37 * HOUR)], 0)
            && TicksApart(calls) && TicksClose(calls)
            && RemindersTo(Log(Fresh(VEHICLES, CONCERTS), calls), 0) == 1
  {
    var w := Fresh(VEHICLES, CONCERTS);
    var first := CONFIRMED + [SendReminders(36 * HOUR)];
    var calls := first + [SendReminders(37 * HOUR)];
    RideIsConfirmed();
    OneMoreCall(w, CONFIRMED, SendReminders(36 * HOUR));
    OneMoreCall(w, first, SendReminders(37 * HOUR));
    TicksOf(CONFIRMED);
    assert first[..|first| - 1] == CONFIRMED && calls[..|calls| - 1] == first;
    RemindedExactlyOnce(VEHICLES, CONCERTS, CONFIRMED, 36 * HOUR, [SendReminders(37 * HOUR)], 0);
  }

  /** Before the first tick nothing is asked of the ticks. */
  lemma {:induction false} TicksOf(calls: seq<Call>)
    requires forall c :: c in calls ==> !c.SendReminders?
    ensures TicksApart(calls) && TicksClose(calls) && LastTick(calls).None?
  {
    if calls != [] {
      assert calls[|calls| - 1] in calls;
      TicksOf(calls[..|calls| - 1]);
    }
  }

  lemma {:induction false} NoTickNoReminder(w: World, calls: seq<Call>, t: TripId)
    requires forall c :: c in calls ==> !c.SendReminders?
    ensures Reminded(w, calls, t) == 0
  {
    if calls != [] {
      var before, call := calls[..|calls| - 1], calls[|calls| - 1];
      assert call in calls;
      NoTickNoReminder(w, before, t);
    }
  }

  /** What two ticks send to the trip that departs at hour 60. */
  lemma RemindedByTwoTicks(first: Instant, second: Instant)
    ensures var calls := CONFIRMED + [SendReminders(first)] + [SendReminders(second)];
            && After(Fresh(VEHICLES, CONCERTS), calls) == AfterConfirmed()
            && RemindersTo(Log(Fresh(VEHICLES, CONCERTS), calls), 0)
                 == (if InWindow(60 * HOUR, first) then 1 else 0) + (if InWindow(60 * HOUR, second) then 1 else 0)
  {
    var w := Fresh(VEHICLES, CONCERTS);
    RideIsConfirmed();
    NoTickNoReminder(w, CONFIRMED, 0);
    OneMoreCall(w, CONFIRMED, SendReminders(first));
    OneMoreCall(w, CONFIRMED + [SendReminders(first)], SendReminders(second));
    RemindersAfterOne(w, CONFIRMED, SendReminders(first), 0);
    RemindersAfterOne(w, CONFIRMED + [SendReminders(first)], SendReminders(second), 0);
    RemindersCounted(w, CONFIRMED + [SendReminders(first)] + [SendReminders(second)], 0);
  }

  /** Two ticks less than an hour apart remind the same trip twice. */
  lemma EarlyTickRemindsTwice()
    ensures var calls := CONFIRMED + [SendReminders(36 * HOUR - 1)] + [SendReminders(36 * HOUR)];
            RemindersTo(Log(Fresh(VEHICLES, CONCERTS), calls), 0) == 2
  {
    RemindedByTwoTicks(36 * HOUR - 1, 36 * HOUR);
  }

  /** Two ticks more than an hour apart pass over a trip that is CONFIRMED all along. */
  lemma LateTickRemindsNobody()
    ensures var calls := CONFIRMED + [SendReminders(35 * HOUR)] + [SendReminders(36 * HOUR + 1)];
            After(Fresh(VEHICLES, CONCERTS), calls) == AfterConfirmed()
            && RemindersTo(Log(Fresh(VEHICLES, CONCERTS), calls), 0) == 0
  {
    RemindedByTwoTicks(35 * HOUR, 36 * HOUR + 1);
  }

  // ---- edits that leave the status behind ----

  const POOL := RIDE.(minPassengers := 3)
  const POOL_ROW := RIDE_ROW.(minPassengers := 3)
  const TWO_SEATS := SEAT.(seats := 2)
  const TAKEN := [] + [CreateTrip(5, POOL)] + [RequestSeats(0, 6, 2)] + [AcceptBooking(0, HOUR)]

  const NOTHING := TripPatch(Absent, Absent, Absent, Absent, Absent, Absent, Absent, Absent, Absent,
                             Absent, Absent, Absent)
  const LOWER_MINIMUM := NOTHING.(minPassengers := Present(1))
  const LOWER_CAPACITY := LOWER_MINIMUM.(maxPassengers := Present(1))

  function AfterTaken(): World {
    World(VEHICLES, CONCERTS, [POOL_ROW],
          [TWO_SEATS.(status := BookingStatus.Confirmed, decidedAt := Some(HOUR))], [])
  }

  /** Three calls in a row, each from the database the one before left. */
  lemma ThreeMoreCalls(w0: World, calls: seq<Call>, a: Call, b: Call, c: Call, w1: World, w2: World, t: TripId)
    requires Apply(After(w0, calls), a).world == w1 && Apply(w1, b).world == w2
    ensures After(w0, calls + [a] + [b] + [c]) == Apply(w2, c).world
    ensures Life(Log(w0, calls + [a] + [b] + [c]), t)
         == Life(Log(w0, calls), t) + Life(Apply(After(w0, calls), a).sent, t)
          + Life(Apply(w1, b).sent, t) + Life(Apply(w2, c).sent, t)
  {
    OneMoreCall(w0, calls, a);
    OneMoreCall(w0, calls + [a], b);
    OneMoreCall(w0, calls + [a] + [b], c);
    LifeConcat(Log(w0, calls), Apply(After(w0, calls), a).sent, t);
    LifeConcat(Log(w0, calls + [a]), Apply(w1, b).sent, t);
    LifeConcat(Log(w0, calls + [a] + [b]), Apply(w2, c).sent, t);
  }

  lemma PoolIsAsked()
    ensures var w := Create(Fresh(VEHICLES, CONCERTS), 5, POOL).world;
            w == World(VEHICLES, CONCERTS, [POOL_ROW], [], [])
            && Request(w, 0, 6, 2).world == World(VEHICLES, CONCERTS, [POOL_ROW], [TWO_SEATS], [])
  {
  }

  lemma PoolIsTaken()
    ensures Accept(World(VEHICLES, CONCERTS, [POOL_ROW], [TWO_SEATS], []), 0, HOUR).world == AfterTaken()
  {
    TwoSeatsHeld();
    assert ConfirmedSeats([TWO_SEATS][..0], 0) == 0;
  }

  lemma TwoOfThreeTaken()
    ensures After(Fresh(VEHICLES, CONCERTS), TAKEN) == AfterTaken()
  {
    PoolIsAsked();
    PoolIsTaken();
    var asked := World(VEHICLES, CONCERTS, [POOL_ROW], [], []);
    var requested := World(VEHICLES, CONCERTS, [POOL_ROW], [TWO_SEATS], []);
    ThreeMoreCalls(Fresh(VEHICLES, CONCERTS), [], CreateTrip(5, POOL), RequestSeats(0, 6, 2), AcceptBooking(0, HOUR),
                   asked, requested, 0);
  }

  lemma TwoSeatsHeld()
    ensures ConfirmedSeats(AfterTaken().bookings, 0) == 2
  {
    assert ConfirmedSeats(AfterTaken().bookings[..0], 0) == 0;
  }

  /** Lowering the minimum to the seats already confirmed leaves the trip OPEN although it is READY by its seats. */
  lemma EditLeavesStatusBehind()
    ensures var w := After(Fresh(VEHICLES, CONCERTS), TAKEN + [UpdateTrip(0, LOWER_MINIMUM)]);
            && |w.trips| == 1 && w.trips[0].status == TripStatus.Open && Derived(ViewOf(w, 0)) == TripStatus.Ready
            && WithinCapacity(w) && !ExactWorld(w)
  {
    TwoOfThreeTaken();
    TwoSeatsHeld();
    OneMoreCall(Fresh(VEHICLES, CONCERTS), TAKEN, UpdateTrip(0, LOWER_MINIMUM));
    var w := After(Fresh(VEHICLES, CONCERTS), TAKEN + [UpdateTrip(0, LOWER_MINIMUM)]);
    assert !Exact(ViewOf(w, 0));
  }

  /** Nor is a capacity below the seats already confirmed refused; the price then leaves its band. */
  lemma EditOverbooks()
    ensures var w := After(Fresh(VEHICLES, CONCERTS), TAKEN + [UpdateTrip(0, LOWER_CAPACITY)]);
            && |w.trips| == 1 && w.trips[0].maxPassengers < ViewOf(w, 0).seats && !WithinCapacity(w)
            && Sound(ViewOf(w, 0))
            && LivePriceOf(ViewOf(w, 0)).perPerson < LivePriceOf(ViewOf(w, 0)).upperBound
  {
    TwoOfThreeTaken();
    TwoSeatsHeld();
    OneMoreCall(Fresh(VEHICLES, CONCERTS), TAKEN, UpdateTrip(0, LOWER_CAPACITY));
  }

  // ---- READY more than once ----

  const PAIR := RIDE.(maxPassengers := 2)
  const PAIR_ROW := RIDE_ROW.(maxPassengers := 2)
  const ONE := SEAT.(status := BookingStatus.Confirmed, decidedAt := Some(HOUR))
  const OTHER := SEAT.(passengerId := 7)
  const TWO := OTHER.(status := BookingStatus.Confirmed, decidedAt := Some(HOUR))

  function PairWorld(status: TripStatus, bookings: seq<Booking>): World {
    World(VEHICLES, CONCERTS, [PAIR_ROW.(status := status)], bookings, [])
  }

  lemma SeatsOfTwo(a: Booking, b: Booking)
    ensures ConfirmedSeats([a, b], 0) == Held(a, 0) + Held(b, 0)
  {
    SeatsAfterInsert([], a, 0);
    SeatsAfterInsert([a], b, 0);
    assert [] + [a] == [a] && [a] + [b] == [a, b];
  }

  lemma FirstSeatIsTaken()
    ensures var o := Accept(PairWorld(TripStatus.Open, [SEAT, OTHER]), 0, HOUR);
            o.world == PairWorld(TripStatus.Ready, [ONE, OTHER]) && o.sent == [TripReady(0), BookingAccepted(0)]
  {
    SeatsOfTwo(SEAT, OTHER);
    SeatsOfTwo(ONE, OTHER);
    assert [SEAT, OTHER][0 := ONE] == [ONE, OTHER];
  }

  lemma SecondSeatIsTaken()
    ensures var o := Accept(PairWorld(TripStatus.Ready, [ONE, OTHER]), 1, HOUR);
            o.world == PairWorld(TripStatus.Full, [ONE, TWO]) && o.sent == [BookingAccepted(1)]
  {
    SeatsOfTwo(ONE, OTHER);
    SeatsOfTwo(ONE, TWO);
    assert [ONE, OTHER][1 := TWO] == [ONE, TWO];
  }

  lemma SecondSeatIsFreed()
    ensures CancelSeats(PairWorld(TripStatus.Full, [ONE, TWO]), 1, HOUR).sent == [TripReady(0)]
  {
    var gone := TWO.(status := BookingStatus.CancelledByPassenger);
    SeatsOfTwo(ONE, gone);
    assert [ONE, TWO][1 := gone] == [ONE, gone];
  }

  const PAIR_ASKED := [] + [CreateTrip(5, PAIR)] + [RequestSeats(0, 6, 1)] + [RequestSeats(0, 7, 1)]

  lemma PairIsCreated()
    ensures var o := Create(Fresh(VEHICLES, CONCERTS), 5, PAIR);
            o.world == PairWorld(TripStatus.Open, []) && o.sent == []
  {
  }

  lemma PairIsAsked()
    ensures var o := Request(PairWorld(TripStatus.Open, []), 0, 6, 1);
            o.world == PairWorld(TripStatus.Open, [SEAT]) && o.sent == [BookingRequested(0)]
    ensures var o := Request(PairWorld(TripStatus.Open, [SEAT]), 0, 7, 1);
            o.world == PairWorld(TripStatus.Open, [SEAT, OTHER]) && o.sent == [BookingRequested(1)]
  {
    assert [SEAT][..0] == [] && [SEAT] + [OTHER] == [SEAT, OTHER];
  }

  lemma PairHasAsked()
    ensures After(Fresh(VEHICLES, CONCERTS), PAIR_ASKED) == PairWorld(TripStatus.Open, [SEAT, OTHER])
    ensures Life(Log(Fresh(VEHICLES, CONCERTS), PAIR_ASKED), 0) == []
  {
    PairIsCreated();
    PairIsAsked();
    ThreeMoreCalls(Fresh(VEHICLES, CONCERTS), [], CreateTrip(5, PAIR), RequestSeats(0, 6, 1), RequestSeats(0, 7, 1),
                   PairWorld(TripStatus.Open, []), PairWorld(TripStatus.Open, [SEAT]), 0);
    NoLife([BookingRequested(0)], 0);
    NoLife([BookingRequested(1)], 0);
  }

  lemma LivesOfPair()
    ensures Life([TripReady(0), BookingAccepted(0)], 0) == [TripReady(0)]
    ensures Life([BookingAccepted(1)], 0) == []
    ensures Life([TripReady(0)], 0) == [TripReady(0)]
  {
    LifeConcat([TripReady(0)], [BookingAccepted(0)], 0);
    assert [TripReady(0)] + [BookingAccepted(0)] == [TripReady(0), BookingAccepted(0)];
    NoLife([BookingAccepted(0)], 0);
    NoLife([BookingAccepted(1)], 0);
    assert [TripReady(0)][..0] == [];
  }

  lemma PairSteps(a: Call, b: Call, c: Call)
    requires a == AcceptBooking(0, HOUR) && b == AcceptBooking(1, HOUR) && c == CancelBooking(1, HOUR)
    ensures var o := Apply(PairWorld(TripStatus.Open, [SEAT, OTHER]), a);
            o.world == PairWorld(TripStatus.Ready, [ONE, OTHER]) && Life(o.sent, 0) == [TripReady(0)]
    ensures var o := Apply(PairWorld(TripStatus.Ready, [ONE, OTHER]), b);
            o.world == PairWorld(TripStatus.Full, [ONE, TWO]) && Life(o.sent, 0) == []
    ensures Life(Apply(PairWorld(TripStatus.Full, [ONE, TWO]), c).sent, 0) == [TripReady(0)]
  {
    FirstSeatIsTaken();
    SecondSeatIsTaken();
    SecondSeatIsFreed();
    LivesOfPair();
  }

  lemma PairGoesOn(w0: World, asked: seq<Call>, a: Call, b: Call, c: Call)
    requires a == AcceptBooking(0, HOUR) && b == AcceptBooking(1, HOUR) && c == CancelBooking(1, HOUR)
    requires After(w0, asked) == PairWorld(TripStatus.Open, [SEAT, OTHER]) && Life(Log(w0, asked), 0) == []
    ensures Life(Log(w0, asked + [a] + [b] + [c]), 0) == [TripReady(0), TripReady(0)]
  {
    PairSteps(a, b, c);
    ThreeMoreCalls(w0, asked, a, b, c,
                   PairWorld(TripStatus.Ready, [ONE, OTHER]), PairWorld(TripStatus.Full, [ONE, TWO]), 0);
  }

  /** READY is announced on every entry: this trip goes READY, FULL, and READY again. */
  lemma ReadyIsAnnouncedTwice()
    ensures var calls := PAIR_ASKED + [AcceptBooking(0, HOUR)] + [AcceptBooking(1, HOUR)] + [CancelBooking(1, HOUR)];
            Life(Log(Fresh(VEHICLES, CONCERTS), calls), 0) == [TripReady(0), TripReady(0)]
  {
    PairHasAsked();
    PairGoesOn(Fresh(VEHICLES, CONCERTS), PAIR_ASKED,
               AcceptBooking(0, HOUR), AcceptBooking(1, HOUR), CancelBooking(1, HOUR));
  }
}

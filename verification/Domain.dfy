/** The rows and enumerations of the ride-sharing backend.
 *
 * A table is a sequence and a primary key is a row number, so a key that is not
 * below the length of its table belongs to no row.  Trips and bookings are never
 * deleted; only the waitlist loses rows, so its entries carry their own key.
 * Instants are milliseconds since the epoch.
 */
module Domain {

  datatype Option<+T> = None | Some(value: T)

  datatype Result<+T> = Ok(value: T) | Err(error: Error)

  type Instant = int
  type UserId = nat
  type TripId = nat
  type BookingId = nat

  const HOUR: Instant := 3_600_000

  /** A number the request validators have already bounded from below by one. */
  type Positive = n: int | 1 <= n witness 1

  datatype Error =
    | NotFound(what: Entity)
    | Conflict(reason: Reason)
    | DatabaseError
    | TypeError

  datatype Entity = TripRow | BookingRow | VehicleRow | ConcertRow | WaitlistRow

  datatype Reason =
    | NotOpen | Finished | NotReady | NotYourVehicle
    | MinAboveMax | MaxAboveVehicle
    | DeadlineAfterConcert | DeadlineAfterDeparture | DepartureAfterConcert
    | OwnTrip | NotBookable | AlreadyBooked | NoSeats
    | NotPending | NotCancellable | NotConfirmed
    | NotFull | AboveCapacity | AlreadyWaiting

  datatype TripStatus = Open | Full | Ready | Confirmed | Completed | Cancelled

  datatype BookingStatus = Pending | Confirmed | Rejected | CancelledByPassenger

  datatype PricingMode = SharedTotal | FixedPerSeat

  datatype Currency = Eur | Rsd

  datatype Vehicle = Vehicle(ownerId: UserId, seats: int)

  datatype Concert = Concert(startAt: Instant)

  /** One stop of a route, with its optional position and time. */
  datatype Stop = Stop(
    order: Positive,
    place: string,
    lat: Option<real>,
    lng: Option<real>,
    plannedTime: Option<Instant>)

  /** A trip row together with the rows of its stops. */
  datatype Trip = Trip(
    driverId: UserId,
    vehicleId: nat,
    concertId: nat,
    pricingMode: PricingMode,
    totalCost: int,
    currency: Currency,
    minPassengers: int,
    maxPassengers: int,
    deadline: Instant,
    departureAt: Instant,
    roundTrip: bool,
    notes: Option<string>,
    stops: seq<Stop>,
    status: TripStatus)

  datatype Booking = Booking(
    tripId: TripId,
    passengerId: UserId,
    seats: Positive,
    status: BookingStatus,
    paid: bool,
    decidedAt: Option<Instant>)

  datatype WaitlistEntry = WaitlistEntry(
    id: nat,
    tripId: TripId,
    passengerId: UserId,
    seats: Positive,
    createdAt: Instant)

  /** One call of a notification port. */
  datatype Notification =
    | TripReady(tripId: TripId)
    | TripConfirmed(tripId: TripId)
    | TripCancelled(tripId: TripId)
    | TripCompleted(tripId: TripId)
    | TripReminder(tripId: TripId)
    | BookingRequested(bookingId: BookingId)
    | BookingAccepted(bookingId: BookingId)
    | BookingRejected(bookingId: BookingId)
    | SeatAvailable(entryId: nat, position: nat)

  function Max(a: int, b: int): int {
    if a < b then b else a
  }

  /** `get(id) ?? 0` on a map of counts. */
  function CountOr0(counts: map<TripId, nat>, id: TripId): nat {
    if id in counts then counts[id] else 0
  }
}

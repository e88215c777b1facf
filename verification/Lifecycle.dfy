/** What every service call does, one call at a time.
 *
 * A call takes the database to its next contents, sends notifications in order, and
 * answers with a value or an error.  `Edits.FailedCallStores` tells which
 * failing calls leave the database alone.  The random key and the clock a call reads
 * are its parameters.
 */
module Lifecycle {
  import opened Domain
  import opened Seats
  import opened StateMachine
  import opened WaitlistQueue

  datatype World = World(
    vehicles: seq<Vehicle>,
    concerts: seq<Concert>,
    trips: seq<Trip>,
    bookings: seq<Booking>,
    waitlist: seq<WaitlistEntry>)

  datatype Outcome = Outcome(world: World, sent: seq<Notification>, response: Result<nat>)

  /** An optional property of a partial update: missing, explicitly null, or given.  The request
      validators skip a property that is null just as they skip a missing one. */
  datatype Patch<+T> = Absent | Null | Present(value: T)

  /** The `??` operator. */
  function Or<T>(p: Patch<T>, default: T): T {
    if p.Present? then p.value else default
  }

  datatype NewTrip = NewTrip(
    vehicleId: nat,
    concertId: nat,
    pricingMode: PricingMode,
    totalCost: Positive,
    currency: Currency,
    minPassengers: Positive,
    maxPassengers: Positive,
    deadline: Instant,
    departureAt: Instant,
    roundTrip: Patch<bool>,
    notes: Patch<string>,
    stops: seq<Stop>)

  datatype TripPatch = TripPatch(
    vehicleId: Patch<nat>,
    concertId: Patch<nat>,
    pricingMode: Patch<PricingMode>,
    totalCost: Patch<Positive>,
    currency: Patch<Currency>,
    minPassengers: Patch<Positive>,
    maxPassengers: Patch<Positive>,
    deadline: Patch<Instant>,
    departureAt: Patch<Instant>,
    roundTrip: Patch<bool>,
    notes: Patch<string>,
    stops: Patch<seq<Stop>>)

  datatype Call =
    | CreateTrip(driverId: UserId, dto: NewTrip)
    | UpdateTrip(tripId: TripId, patch: TripPatch)
    | ConfirmTrip(tripId: TripId)
    | CancelTrip(tripId: TripId)
    | SweepExpired(now: Instant)
    | SendReminders(now: Instant)
    | RequestSeats(tripId: TripId, passengerId: UserId, seats: Positive)
    | AcceptBooking(bookingId: BookingId, now: Instant)
    | RejectBooking(bookingId: BookingId, now: Instant)
    | CancelBooking(bookingId: BookingId, now: Instant)
    | SetPaid(bookingId: BookingId, paid: bool)
    | JoinWaitlist(tripId: TripId, passengerId: UserId, seats: Positive, entryId: nat, now: Instant)
    | LeaveWaitlist(tripId: TripId, passengerId: UserId)

  function Fail(w: World, error: Error): Outcome {
    Outcome(w, [], Err(error))
  }

  // ---- trips ----

  function CapacityFault(vehicle: Vehicle, min: int, max: int): Option<Error> {
    if min > max then Some(Conflict(MinAboveMax))
    else if max > vehicle.seats then Some(Conflict(MaxAboveVehicle))
    else None
  }

  function ScheduleFault(deadline: Instant, departureAt: Instant, concert: Concert): Option<Error> {
    if deadline >= concert.startAt then Some(Conflict(DeadlineAfterConcert))
    else if deadline >= departureAt then Some(Conflict(DeadlineAfterDeparture))
    else if departureAt > concert.startAt then Some(Conflict(DepartureAfterConcert))
    else None
  }

  function First(a: Option<Error>, b: Option<Error>): Option<Error> {
    if a.Some? then a else b
  }

  /** Why a new trip is refused before anything is stored, if it is. */
  function CreateFault(w: World, driverId: UserId, dto: NewTrip): Option<Error> {
    if dto.vehicleId >= |w.vehicles| then Some(NotFound(VehicleRow))
    else if dto.concertId >= |w.concerts| then Some(NotFound(ConcertRow))
    else if w.vehicles[dto.vehicleId].ownerId != driverId then Some(Conflict(NotYourVehicle))
    else First(CapacityFault(w.vehicles[dto.vehicleId], dto.minPassengers, dto.maxPassengers),
               ScheduleFault(dto.deadline, dto.departureAt, w.concerts[dto.concertId]))
  }

  function NewRow(driverId: UserId, dto: NewTrip): Trip {
    Trip(driverId, dto.vehicleId, dto.concertId, dto.pricingMode, dto.totalCost, dto.currency,
         dto.minPassengers, dto.maxPassengers, dto.deadline, dto.departureAt,
         Or(dto.roundTrip, false), NotesOr(dto.notes, None), StopsAfter([], Present(dto.stops)), TripStatus.Open)
  }

  /** A trip that is not refused is stored, even when storing its stops then fails. */
  function Create(w: World, driverId: UserId, dto: NewTrip): Outcome {
    var fault := CreateFault(w, driverId, dto);
    if fault.Some? then Fail(w, fault.value)
    else Outcome(w.(trips := w.trips + [NewRow(driverId, dto)]), [], StopsAnswer(Present(dto.stops), |w.trips|))
  }

  /** A column that may be null takes an explicit null. */
  function NotesOr(p: Patch<string>, default: Option<string>): Option<string> {
    match p
    case Absent => default
    case Null => None
    case Present(v) => Some(v)
  }

  /** The unique index on trip and order. */
  predicate DistinctOrders(stops: seq<Stop>) {
    forall i, j :: 0 <= i < j < |stops| ==> stops[i].order != stops[j].order
  }

  /** The stops are replaced after the trip is saved: the old ones are deleted first, and the new ones
      stored only if there is a list of them with distinct orders. */
  function StopsAfter(stored: seq<Stop>, p: Patch<seq<Stop>>): seq<Stop> {
    match p
    case Absent => stored
    case Null => []
    case Present(stops) => if DistinctOrders(stops) then stops else []
  }

  predicate StopsFail(p: Patch<seq<Stop>>) {
    p.Null? || (p.Present? && !DistinctOrders(p.value))
  }

  function StopsAnswer(p: Patch<seq<Stop>>, id: TripId): Result<nat> {
    if p.Null? then Err(TypeError)
    else if StopsFail(p) then Err(DatabaseError)
    else Ok(id)
  }

  /** `new Date(value)` when the property is given: a null becomes the epoch. */
  function DateOr(p: Patch<Instant>, default: Instant): Instant {
    match p
    case Absent => default
    case Null => 0
    case Present(v) => v
  }

  /** The columns of a trip after a patch that passed its checks. */
  function Patched(trip: Trip, p: TripPatch): Trip {
    trip.(
      vehicleId := Or(p.vehicleId, trip.vehicleId),
      concertId := Or(p.concertId, trip.concertId),
      pricingMode := Or(p.pricingMode, trip.pricingMode),
      totalCost := Or<int>(p.totalCost, trip.totalCost),
      currency := Or(p.currency, trip.currency),
      minPassengers := Or<int>(p.minPassengers, trip.minPassengers),
      maxPassengers := Or<int>(p.maxPassengers, trip.maxPassengers),
      deadline := DateOr(p.deadline, trip.deadline),
      departureAt := DateOr(p.departureAt, trip.departureAt),
      roundTrip := Or(p.roundTrip, trip.roundTrip),
      notes := NotesOr(p.notes, trip.notes),
      stops := StopsAfter(trip.stops, p.stops))
  }

  /** A null written to a column that must not be null fails in the database. */
  predicate WritesNull(p: TripPatch) {
    p.vehicleId.Null? || p.concertId.Null? || p.pricingMode.Null? || p.totalCost.Null? || p.currency.Null?
    || p.roundTrip.Null?
  }

  /** Why an update is refused before anything is stored, if it is. */
  function UpdateFault(w: World, id: TripId, p: TripPatch): Option<Error> {
    if id >= |w.trips| then Some(NotFound(TripRow))
    else
      var trip := w.trips[id];
      if trip.status != TripStatus.Open then Some(Conflict(NotOpen))
      else
        var vehicleId, concertId := Or(p.vehicleId, trip.vehicleId), Or(p.concertId, trip.concertId);
        if vehicleId >= |w.vehicles| then Some(NotFound(VehicleRow))
        else if concertId >= |w.concerts| then Some(NotFound(ConcertRow))
        else if vehicleId != trip.vehicleId && w.vehicles[vehicleId].ownerId != trip.driverId then
          Some(Conflict(NotYourVehicle))
        else
          var min, max := Or<int>(p.minPassengers, trip.minPassengers), Or<int>(p.maxPassengers, trip.maxPassengers);
          var deadline, departureAt := Or(p.deadline, trip.deadline), Or(p.departureAt, trip.departureAt);
          var fault := First(CapacityFault(w.vehicles[vehicleId], min, max),
                             ScheduleFault(deadline, departureAt, w.concerts[concertId]));
          if fault.Some? then fault
          else if WritesNull(p) then Some(DatabaseError) else None
  }

  /** An update that is not refused is stored, even when replacing the stops then fails. */
  function Update(w: World, id: TripId, p: TripPatch): Outcome {
    var fault := UpdateFault(w, id, p);
    if fault.Some? then Fail(w, fault.value)
    else Outcome(w.(trips := w.trips[id := Patched(w.trips[id], p)]), [], StopsAnswer(p.stops, id))
  }

  function SetStatus(w: World, id: TripId, status: TripStatus): World
    requires id < |w.trips|
  {
    w.(trips := w.trips[id := w.trips[id].(status := status)])
  }

  function Confirm(w: World, id: TripId): Outcome {
    if id >= |w.trips| then Fail(w, NotFound(TripRow))
    else if w.trips[id].status != TripStatus.Ready then Fail(w, Conflict(NotReady))
    else Outcome(SetStatus(w, id, TripStatus.Confirmed), [TripConfirmed(id)], Ok(id))
  }

  function Cancel(w: World, id: TripId): Outcome {
    if id >= |w.trips| then Fail(w, NotFound(TripRow))
    else if IsFinished(w.trips[id].status) then Fail(w, Conflict(Finished))
    else Outcome(SetStatus(w, id, TripStatus.Cancelled), [TripCancelled(id)], Ok(id))
  }

  /** The READY notification goes out whenever READY is entered, also from FULL. */
  function ReadyNotice(id: TripId, before: TripStatus, after: TripStatus): seq<Notification> {
    if after != before && after == TripStatus.Ready then [TripReady(id)] else []
  }

  function DerivedFor(w: World, id: TripId): TripStatus
    requires id < |w.trips|
  {
    var trip := w.trips[id];
    DeriveStatus(trip.status, ConfirmedSeats(w.bookings, id), trip.minPassengers, trip.maxPassengers)
  }

  function Recompute(w: World, id: TripId): Outcome {
    if id >= |w.trips| then Fail(w, NotFound(TripRow))
    else
      var next := DerivedFor(w, id);
      Outcome(SetStatus(w, id, next), ReadyNotice(id, w.trips[id].status, next), Ok(id))
  }

  // ---- the two scheduled jobs ----

  /** Past its go/no-go deadline without the minimum. */
  predicate Expires(w: World, id: TripId, now: Instant)
    requires id < |w.trips|
  {
    var trip := w.trips[id];
    IsActive(trip.status) && trip.deadline <= now && ConfirmedSeats(w.bookings, id) < trip.minPassengers
  }

  predicate Departs(w: World, id: TripId, now: Instant)
    requires id < |w.trips|
  {
    w.trips[id].status == TripStatus.Confirmed && w.trips[id].departureAt <= now
  }

  function SweptTrip(w: World, id: TripId, now: Instant): Trip
    requires id < |w.trips|
  {
    if Expires(w, id, now) then w.trips[id].(status := TripStatus.Cancelled)
    else if Departs(w, id, now) then w.trips[id].(status := TripStatus.Completed)
    else w.trips[id]
  }

  function Swept(w: World, now: Instant): World {
    w.(trips := seq(|w.trips|, i requires 0 <= i < |w.trips| => SweptTrip(w, i, now)))
  }

  /** The notices of the trips below `n` that a sweep cancels, in row order; then of those it completes. */
  function CancelledBelow(w: World, now: Instant, n: nat): seq<Notification>
    requires n <= |w.trips|
  {
    if n == 0 then []
    else if Expires(w, n - 1, now) then CancelledBelow(w, now, n - 1) + [TripCancelled(n - 1)]
    else CancelledBelow(w, now, n - 1)
  }

  function CompletedBelow(w: World, now: Instant, n: nat): seq<Notification>
    requires n <= |w.trips|
  {
    if n == 0 then []
    else if Departs(w, n - 1, now) then CompletedBelow(w, now, n - 1) + [TripCompleted(n - 1)]
    else CompletedBelow(w, now, n - 1)
  }

  function Sweep(w: World, now: Instant): Outcome {
    var cancelled, completed := CancelledBelow(w, now, |w.trips|), CompletedBelow(w, now, |w.trips|);
    Outcome(Swept(w, now), cancelled + completed, Ok(|cancelled| + |completed|))
  }

  /** The hour that starts a day from now. */
  predicate InWindow(at: Instant, now: Instant) {
    now + 24 * HOUR <= at < now + 25 * HOUR
  }

  predicate InReminderWindow(trip: Trip, now: Instant) {
    trip.status == TripStatus.Confirmed && InWindow(trip.departureAt, now)
  }

  function RemindersBelow(w: World, now: Instant, n: nat): seq<Notification>
    requires n <= |w.trips|
  {
    if n == 0 then []
    else if InReminderWindow(w.trips[n - 1], now) then RemindersBelow(w, now, n - 1) + [TripReminder(n - 1)]
    else RemindersBelow(w, now, n - 1)
  }

  function Remind(w: World, now: Instant): Outcome {
    var notices := RemindersBelow(w, now, |w.trips|);
    Outcome(w, notices, Ok(|notices|))
  }

  // ---- bookings ----

  predicate HasActiveBooking(bookings: seq<Booking>, tripId: TripId, passengerId: UserId) {
    exists i :: 0 <= i < |bookings| && bookings[i].tripId == tripId && bookings[i].passengerId == passengerId
      && (bookings[i].status == BookingStatus.Pending || bookings[i].status == BookingStatus.Confirmed)
  }

  function Request(w: World, tripId: TripId, passengerId: UserId, seats: Positive): Outcome {
    if tripId >= |w.trips| then Fail(w, NotFound(TripRow))
    else
      var trip := w.trips[tripId];
      if trip.driverId == passengerId then Fail(w, Conflict(OwnTrip))
      else if !IsActive(trip.status) then Fail(w, Conflict(NotBookable))
      else if HasActiveBooking(w.bookings, tripId, passengerId) then Fail(w, Conflict(AlreadyBooked))
      else if ConfirmedSeats(w.bookings, tripId) + seats > trip.maxPassengers then Fail(w, Conflict(NoSeats))
      else
        var row := Booking(tripId, passengerId, seats, BookingStatus.Pending, false, None);
        Outcome(w.(bookings := w.bookings + [row]), [BookingRequested(|w.bookings|)], Ok(|w.bookings|))
  }

  function Decide(w: World, id: BookingId, status: BookingStatus, now: Instant): World
    requires id < |w.bookings|
  {
    w.(bookings := w.bookings[id := w.bookings[id].(status := status, decidedAt := Some(now))])
  }

  function Accept(w: World, id: BookingId, now: Instant): Outcome {
    if id >= |w.bookings| then Fail(w, NotFound(BookingRow))
    else
      var booking := w.bookings[id];
      if booking.status != BookingStatus.Pending then Fail(w, Conflict(NotPending))
      else if booking.tripId >= |w.trips| then Fail(w, NotFound(TripRow))
      else
        var trip := w.trips[booking.tripId];
        if !IsActive(trip.status) then Fail(w, Conflict(NotBookable))
        else if ConfirmedSeats(w.bookings, booking.tripId) + booking.seats > trip.maxPassengers then
          Fail(w, Conflict(NoSeats))
        else
          var after := Recompute(Decide(w, id, BookingStatus.Confirmed, now), booking.tripId);
          Outcome(after.world, after.sent + [BookingAccepted(id)], Ok(id))
  }

  function Reject(w: World, id: BookingId, now: Instant): Outcome {
    if id >= |w.bookings| then Fail(w, NotFound(BookingRow))
    else if w.bookings[id].status != BookingStatus.Pending then Fail(w, Conflict(NotPending))
    else Outcome(Decide(w, id, BookingStatus.Rejected, now), [BookingRejected(id)], Ok(id))
  }

  /** Everybody waiting for the trip is told, in queue order, with their position. */
  function SeatFreed(w: World, tripId: TripId): seq<Notification> {
    var queue := Queue(w.waitlist, tripId);
    seq(|queue|, i requires 0 <= i < |queue| => SeatAvailable(queue[i].id, i + 1))
  }

  function CancelSeats(w: World, id: BookingId, now: Instant): Outcome {
    if id >= |w.bookings| then Fail(w, NotFound(BookingRow))
    else
      var booking := w.bookings[id];
      if booking.status != BookingStatus.Pending && booking.status != BookingStatus.Confirmed then
        Fail(w, Conflict(NotCancellable))
      else
        var saved := Decide(w, id, BookingStatus.CancelledByPassenger, now);
        if booking.status == BookingStatus.Pending then Outcome(saved, [], Ok(id))
        else
          var after := Recompute(saved, booking.tripId);
          if after.response.Err? then after
          else Outcome(after.world, after.sent + SeatFreed(w, booking.tripId), Ok(id))
  }

  function MarkPaid(w: World, id: BookingId, paid: bool): Outcome {
    if id >= |w.bookings| then Fail(w, NotFound(BookingRow))
    else if w.bookings[id].status != BookingStatus.Confirmed then Fail(w, Conflict(NotConfirmed))
    else Outcome(w.(bookings := w.bookings[id := w.bookings[id].(paid := paid)]), [], Ok(id))
  }

  // ---- waitlist ----

  /** The row of this passenger on this trip, if there is one. */
  function EntryIndex(rows: seq<WaitlistEntry>, tripId: TripId, passengerId: UserId): (found: Option<nat>)
    ensures found.Some? ==> found.value < |rows|
                            && rows[found.value].tripId == tripId && rows[found.value].passengerId == passengerId
    ensures found.None? ==> forall e :: e in rows ==> !(e.tripId == tripId && e.passengerId == passengerId)
  {
    if rows == [] then None
    else
      var last := |rows| - 1;
      if rows[last].tripId == tripId && rows[last].passengerId == passengerId then Some(last)
      else EntryIndex(rows[..last], tripId, passengerId)
  }

  predicate KeyInUse(rows: seq<WaitlistEntry>, id: nat) {
    exists i :: 0 <= i < |rows| && rows[i].id == id
  }

  function Join(w: World, tripId: TripId, passengerId: UserId, seats: Positive, entryId: nat, now: Instant): Outcome {
    if tripId >= |w.trips| then Fail(w, NotFound(TripRow))
    else
      var trip := w.trips[tripId];
      if trip.driverId == passengerId then Fail(w, Conflict(OwnTrip))
      else if trip.status != TripStatus.Full then Fail(w, Conflict(NotFull))
      else if seats > trip.maxPassengers then Fail(w, Conflict(AboveCapacity))
      else if EntryIndex(w.waitlist, tripId, passengerId).Some? then Fail(w, Conflict(AlreadyWaiting))
      else if HasActiveBooking(w.bookings, tripId, passengerId) then Fail(w, Conflict(AlreadyBooked))
      else if KeyInUse(w.waitlist, entryId) then Fail(w, DatabaseError)
      else
        var entry := WaitlistEntry(entryId, tripId, passengerId, seats, now);
        var rows := w.waitlist + [entry];
        Outcome(w.(waitlist := rows), [], Ok(Rank(rows, entry)))
  }

  function Leave(w: World, tripId: TripId, passengerId: UserId): Outcome {
    var found := EntryIndex(w.waitlist, tripId, passengerId);
    if found.None? then Fail(w, NotFound(WaitlistRow))
    else Outcome(w.(waitlist := Without(w.waitlist, found.value)), [], Ok(0))
  }

  // ---- runs ----

  function Apply(w: World, call: Call): Outcome {
    match call
    case CreateTrip(driverId, dto) => Create(w, driverId, dto)
    case UpdateTrip(id, p) => Update(w, id, p)
    case ConfirmTrip(id) => Confirm(w, id)
    case CancelTrip(id) => Cancel(w, id)
    case SweepExpired(now) => Sweep(w, now)
    case SendReminders(now) => Remind(w, now)
    case RequestSeats(tripId, passengerId, seats) => Request(w, tripId, passengerId, seats)
    case AcceptBooking(id, now) => Accept(w, id, now)
    case RejectBooking(id, now) => Reject(w, id, now)
    case CancelBooking(id, now) => CancelSeats(w, id, now)
    case SetPaid(id, paid) => MarkPaid(w, id, paid)
    case JoinWaitlist(tripId, passengerId, seats, entryId, now) => Join(w, tripId, passengerId, seats, entryId, now)
    case LeaveWaitlist(tripId, passengerId) => Leave(w, tripId, passengerId)
  }

  /** A database with users, vehicles and concerts, before the first trip. */
  function Fresh(vehicles: seq<Vehicle>, concerts: seq<Concert>): World {
    World(vehicles, concerts, [], [], [])
  }

  /** The database, and everything sent, after a sequence of calls. */
  function After(w: World, calls: seq<Call>): World {
    if calls == [] then w
    else Apply(After(w, calls[..|calls| - 1]), calls[|calls| - 1]).world
  }

  function Log(w: World, calls: seq<Call>): seq<Notification> {
    if calls == [] then []
    else Log(w, calls[..|calls| - 1]) + Apply(After(w, calls[..|calls| - 1]), calls[|calls| - 1]).sent
  }
}

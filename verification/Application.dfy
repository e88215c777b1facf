/** The whole backend: the services wired to one database, serving calls one after another. */
module Application {
  import opened Domain
  import opened Lifecycle
  import opened Moves
  import opened Runs
  import opened Services

  class App {
    const db: Database
    const trips: TripsService
    const reminders: TripReminderJob
    const waitlist: WaitlistService
    const bookings: BookingsService

    constructor (vehicles: seq<Vehicle>, concerts: seq<Concert>)
      ensures Wired() && fresh(db)
      ensures db.State() == Fresh(vehicles, concerts) && db.log == []
    {
      var d := new Database(vehicles, concerts);
      var t := new TripsService(d);
      var w := new WaitlistService(d);
      db, trips, waitlist := d, t, w;
      reminders := new TripReminderJob(d);
      bookings := new BookingsService(d, t, w);
    }

    predicate Wired() {
      trips.db == db && reminders.db == db && waitlist.db == db
      && bookings.db == db && bookings.trips == trips && bookings.waitlist == waitlist
    }

    /** Hands a call to the service it is meant for. */
    method Dispatch(call: Call) returns (r: Result<nat>)
      requires Wired() && Linked(db.State())
      modifies db
      ensures var o := Apply(old(db.State()), call); db.Reached(o, old(db.log)) && r == o.response
    {
      match call
      case CreateTrip(driverId, dto) => r := trips.Create(driverId, dto);
      case UpdateTrip(id, patch) => r := trips.Update(id, patch);
      case ConfirmTrip(id) => r := trips.Confirm(id);
      case CancelTrip(id) => r := trips.Cancel(id);
      case SweepExpired(now) => r := trips.SweepExpired(now);
      case SendReminders(now) => r := reminders.SendDueReminders(now);
      case RequestSeats(tripId, passengerId, seats) => r := bookings.Request(tripId, passengerId, seats);
      case AcceptBooking(id, now) => r := bookings.Accept(id, now);
      case RejectBooking(id, now) => r := bookings.Reject(id, now);
      case CancelBooking(id, now) => r := bookings.Cancel(id, now);
      case SetPaid(id, paid) => r := bookings.SetPaid(id, paid);
      case JoinWaitlist(tripId, passengerId, seats, entryId, now) =>
        r := waitlist.Join(tripId, passengerId, seats, entryId, now);
      case LeaveWaitlist(tripId, passengerId) => r := waitlist.Leave(tripId, passengerId);
    }
  }

  /** The services, driven through any sequence of calls, reach exactly the state and the notifications
      that the theorems about runs speak of. */
  method Serve(vehicles: seq<Vehicle>, concerts: seq<Concert>, calls: seq<Call>) returns (app: App)
    ensures app.db.State() == After(Fresh(vehicles, concerts), calls)
    ensures app.db.log == Log(Fresh(vehicles, concerts), calls)
    ensures SoundWorld(app.db.State())
  {
    app := new App(vehicles, concerts);
    for i := 0 to |calls|
      invariant app.Wired() && fresh(app.db)
      invariant app.db.State() == After(Fresh(vehicles, concerts), calls[..i])
      invariant app.db.log == Log(Fresh(vehicles, concerts), calls[..i])
    {
      EveryRunLinked(vehicles, concerts, calls[..i]);
      assert calls[..i + 1][..i] == calls[..i];
      var _ := app.Dispatch(calls[i]);
    }
    assert calls[..|calls|] == calls;
    EveryRunSound(vehicles, concerts, calls);
  }
}

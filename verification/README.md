# GigDrive ride sharing: verified model

GigDrive lets a driver offer seats to a concert. Passengers request seats, the driver accepts them,
the trip moves between OPEN, READY and FULL as seats are confirmed, and the driver confirms or
cancels it; an hourly sweep cancels trips that missed their minimum and completes departed ones. This
project models that lifecycle, the money around it, the waitlist, reviews, trip lists and the text
formats the backend writes, and proves what they promise. `dafny verify dfyconfig.toml` checks it.

How it is organised:

- `Domain`, `Seats`, `StateMachine`, `Pricing`: rows, the confirmed-seat sum, status derivation, price.
- `Interleaving`: any number of request, accept, reject, cancel and set-paid threads, interleaved at
  every database operation and working on stale copies. `accept` reads its booking before its
  transaction, then locks the trip row, sums, checks, writes and commits. The trip status is not part
  of this module: whether the status check passes is left to the scheduler.
- `Lifecycle`: one function per service call, from a database to the next database, the notifications
  sent and the answer. `Services` holds the services themselves, as classes that assign fields and
  loop over rows, each method proved to do exactly what its function says; `Application` wires them to
  one database and serves any sequence of calls, so the theorems about runs are about the services.
- `TripEffects`, `BookingEffects`: what each call does, column by column and without the functions above: its
  checks in their order (`Checks`), the rows it leaves, and whom it tells.
- `Atomic`: a call served without interruption is a schedule of the steps in `Interleaving`, which goes through
  if and only if the call succeeds and leaves the same bookings.
- `Moves`: whatever a call does, it does one of eight things to any one trip. `Runs`, `Bounds`, `Edits`,
  `Prices`, `Notices`, `Sweeps` and `BookingRows` draw from this what holds in every run: any sequence of
  calls, edits, sweeps and reminders included, from an empty trip table. Where a promise holds only under a
  condition, `Runs.ThroughoutIff` carries the exact condition from one call to whole runs, and `Scenarios`
  has the concrete run that breaks it.
- `WaitlistQueue`, `Earnings`, `Reviews`, `Listing`: batched forms against their one-at-a-time meaning.
- `Text`, `Manifest`, `Html`, `Filenames`: the CSV writer with a reader following section 2 of RFC 4180, the
  HTML escaper with its decoder, and the file name carried through the download header.

Modelling choices: a table is a sequence and a primary key is a row number (trips and bookings are
never deleted); waitlist rows carry their own key. Instants are integers, in milliseconds since the
epoch. The clock and the random key of a waitlist row are parameters. Saving an entity writes all its
columns: `update` assigns a new vehicle or concert key while the old row is still loaded beside it
(backend/src/trips/trips.service.ts:130-135 and 552-556), and the model takes the new key to be the one
stored, which rests on the mapper and not on this code; `Edits.EveryRunEquipped` and the concert part of
`Edits.RunScheduledIff` depend on it. The stops of a trip are kept with its row. A query without an order answers in row order. Request values the validators bound below by
one have a type that says so. In `Reviews` the keys are UUID strings.

Where the code differs from its documentation, the model follows the code:

- The update checks accept an explicit `null` for an optional property. `departureAt: null` passes the
  schedule check with the old departure and is then stored as the epoch, so the promised
  "deadline before departure" can break. `Edits.UpdateKeepsScheduleIff` gives the exact condition on
  the patch, `Edits.RunScheduledIff` on a whole run, `Edits.NullDepartureBreaksSchedule` a concrete run,
  and `Edits.EveryRunScheduled` the promise for all runs without a null date.
- Setting the paid flag rewrites the whole booking row outside any lock. A flag saved from a stale
  copy can revive a cancelled booking and overbook the trip: after its seat was given away
  (`Interleaving.StalePaidSaveOverbooks`), or, although the seat still fits at that moment, between the
  sum and the commit of the accept that gives it away (`Interleaving.FittingPaidSaveOverbooks`). The exact
  condition is on the state before the save: the row is still confirmed, or its seats fit beside the
  confirmed ones and those the lock holder is about to confirm. `Interleaving.PaidSaveSafeIff` proves both
  directions for one save, `Interleaving.NeverOverbookedIff` for whole schedules, and the capacity theorem
  `Interleaving.NeverOverbooked` asks no more than that.
- Creating and editing store the trip first and replace its stops afterwards, in no common transaction. On
  `stops: null`, or on two stops with the same place in the route, the call answers with an error although
  the trip is stored and left without stops: `Edits.FailedCallStores` says for every failing call what it
  leaves behind, `Edits.NullStopsAreHalfApplied` is an input.
- An edit does not derive the status again, and may lower the capacity below the seats already confirmed
  (`Scenarios.EditLeavesStatusBehind`, `Scenarios.EditOverbooks`). `Bounds.RunExactIff` and
  `Bounds.RunWithinCapacityIff` give the exact conditions on the edits of a run.
- A CONFIRMED trip may fall below its minimum (`Scenarios.ConfirmedBelowMinimum`), exactly when a
  cancellation takes it there: `Bounds.RunKeepsMinimumIff`.
- The reminder job counts on ticks one hour apart, but reads the clock when it runs. A tick less than an hour
  after the last can remind a trip twice, a tick more than an hour after it can pass over one
  (`Scenarios.EarlyTickRemindsTwice`, `Scenarios.LateTickRemindsNobody`). `Notices.NeverRemindedTwice` needs
  only ticks at least an hour apart, `Notices.RemindedAtLeastOnce` only ticks at most an hour apart, and
  `Notices.WindowsDisjointIff` and `Notices.WindowsTouchIff` show that neither can do with less.
- The sweep's comment speaks of OPEN and FULL trips; only OPEN ones are ever cancelled by it.
- `recomputeStatus` is described as announcing READY when it is first reached; it does so on every entry
  (`Scenarios.ReadyIsAnnouncedTwice`).

## Model

| member | source | states |
|---|---|---|
| Interleaving.NeverOverbooked | backend/src/bookings/bookings.service.ts:95-194 | From any state within capacity, every schedule of any number of threads on stale copies, its paid saves harmless, ends within capacity; capacities are unchanged |
| Interleaving.NeverOverbookedWithPaidInOneGo | backend/src/bookings/bookings.service.ts:95-208 | The same for every schedule in which a paid flag is saved right after it was read, with nothing else asked |
| Interleaving.LockHolderBound | backend/src/bookings/bookings.service.ts:101-130 | With paid flags saved while their row is confirmed: at any point of any schedule the sum a lock holder computed bounds the committed sum, and the holder is alone in the transaction |
| Interleaving.LockHolderBoundIff | backend/src/bookings/bookings.service.ts:101-135 | In any schedule, the sums taken by lock holders bound the committed ones at every point if and only if no stale paid flag brings back more seats than those sums leave room for |
| Interleaving.LockIsExclusive | backend/src/bookings/bookings.service.ts:101-108 | In any schedule no two threads are inside the transaction for one trip |
| Interleaving.CommitKeepsInv | backend/src/bookings/bookings.service.ts:132-135 | The commit of an accept keeps every thread's bounds; accepting a booking already confirmed adds nothing |
| Interleaving.TransactionKeepsInv | backend/src/bookings/bookings.service.ts:101-130 | Locking, summing, checking, writing and rolling back keep the invariant |
| Interleaving.SaveKeepsInv | backend/src/bookings/bookings.service.ts:152-194 | A rejection or cancellation written from a stale copy keeps every thread's bounds |
| Interleaving.StepKeepsInv | backend/src/bookings/bookings.service.ts:51-208 | Every step of every thread, a harmless paid save included, keeps capacity and what each thread relies on |
| Interleaving.PaidSaveSafeIff | backend/src/bookings/bookings.service.ts:199-208 | After a paid save no requests, accepts, rejections or cancellations, however interleaved, can overbook, if and only if the row was still confirmed or its seats fit beside the confirmed ones and those the lock holder is about to confirm |
| Interleaving.HarmfulPaidSaveOverbooks | backend/src/bookings/bookings.service.ts:124-135 | After any other paid save at most two more steps, the lock holder's save and commit, overbook |
| Interleaving.NeverOverbookedIff | backend/src/bookings/bookings.service.ts:95-208 | No point of a schedule can be followed by an overbooking if and only if all its paid saves are harmless in that sense |
| Interleaving.FittingPaidSaveOverbooks | backend/src/bookings/bookings.service.ts:109-135 | A schedule that is within capacity right after a stale paid save and overbooks at the next commit |
| Interleaving.StalePaidSaveOverbooks | backend/src/bookings/bookings.service.ts:199-208 | A nine-step schedule in which a stale paid flag sells one seat twice |
| Atomic.AcceptAlone | backend/src/bookings/bookings.service.ts:95-135 | On a quiet database the five steps of an accept can be taken if and only if the call succeeds, and leave its bookings and no lock |
| Atomic.RequestAlone | backend/src/bookings/bookings.service.ts:51-84 | The same for the two steps of a request |
| Atomic.RejectAlone | backend/src/bookings/bookings.service.ts:152-162 | The same for a rejection |
| Atomic.CancelAlone | backend/src/bookings/bookings.service.ts:173-186 | The same for a cancellation |
| Atomic.SetPaidAlone | backend/src/bookings/bookings.service.ts:199-208 | The same for the paid flag |
| Seats.SeatsAreThoseOfConfirmed | backend/src/bookings/bookings.service.ts:262-268 | Each confirmed booking of the trip adds its seats, and no other booking adds any |
| Seats.SeatsAfterSave | backend/src/bookings/bookings.service.ts:262-268 | Saving one booking row changes the confirmed seats of a trip by exactly the difference of the two rows |
| Seats.SeatsAfterInsert | backend/src/bookings/bookings.service.ts:262-268 | Inserting a row adds exactly what the row holds |
| Services.Database.CountConfirmedSeats | backend/src/trips/trips.service.ts:527-533 | The loop over confirmed rows computes the confirmed-seat sum |
| Services.Database.FindActiveBooking | backend/src/bookings/bookings.service.ts:246-260 | Finds a pending or confirmed booking of the passenger on the trip if and only if there is one |
| Services.BookingsService.Request | backend/src/bookings/bookings.service.ts:51-88 | New database, notifications and answer of a request, all refusals included |
| Services.BookingsService.Accept | backend/src/bookings/bookings.service.ts:95-147 | The same for an accept, with status recomputed and READY sent before the acceptance notice |
| Services.BookingsService.Reject | backend/src/bookings/bookings.service.ts:152-167 | The same for a rejection |
| Services.BookingsService.Cancel | backend/src/bookings/bookings.service.ts:173-194 | The same for a passenger's cancellation; only a confirmed one recomputes and tells the waitlist |
| Services.BookingsService.SetPaid | backend/src/bookings/bookings.service.ts:199-208 | The same for the paid flag |
| Services.TripsService.Create | backend/src/trips/trips.service.ts:68-100 | The same for creating a trip, with its ownership, capacity and schedule refusals in order, its notes, round-trip flag and stops |
| Services.TripsService.ReplaceStops | backend/src/trips/trips.service.ts:509-525 | The old stops are gone in any case; the new ones are stored if and only if they are a list without a repeated place in the route |
| Services.TripsService.Update | backend/src/trips/trips.service.ts:106-167 | The same for a partial update, telling missing, null and given properties apart, the replaced stops included |
| Services.TripsService.Confirm | backend/src/trips/trips.service.ts:170-195 | The same for the driver's confirmation |
| Services.TripsService.Cancel | backend/src/trips/trips.service.ts:231-244 | The same for the driver's cancellation |
| Services.TripsService.RecomputeStatus | backend/src/trips/trips.service.ts:251-273 | Stores the derived status and sends READY exactly when READY is entered |
| Services.TripsService.SweepExpired | backend/src/trips/trips.service.ts:349-389 | The two loops produce the swept table, the notices in order and the number of changed trips |
| Services.TripReminderJob.SendDueReminders | backend/src/notifications/trip-reminder.job.ts:44-58 | Reminds exactly the confirmed trips departing in the window and counts them |
| Services.WaitlistService.Join | backend/src/waitlist/waitlist.service.ts:47-83 | New database and answer of joining, the position being the rank among the rows of the trip |
| Services.WaitlistService.Leave | backend/src/waitlist/waitlist.service.ts:85-94 | Removes exactly that row, or answers that there is none |
| Services.WaitlistService.NotifyOnSeatFreed | backend/src/waitlist/waitlist.service.ts:126-138 | Tells everybody waiting for the trip, in order, with index + 1 |
| Services.WaitlistService.PositionsOnTrips | backend/src/waitlist/waitlist.service.ts:176-192 | One pass over several trips gives every entry its rank on its own trip, and nobody else a position |
| Services.WaitlistService.PositionOf | backend/src/waitlist/waitlist.service.ts:171-174 | The position on one trip alone is the same rank, and 1 for an entry that is not stored |
| Application.App.Dispatch | backend/src/bookings/bookings.service.ts:51-208 | The service a call is meant for does what the call's function says, the unique waitlist keys coming from the run |
| Application.Serve | backend/src/trips/trips.service.ts:68-389 | The services driven through any sequence of calls reach the state and the notifications of the run theorems |
| TripEffects.CreateEffect | backend/src/trips/trips.service.ts:68-100 | Refused with the first of its checks that fails; else an OPEN trip with exactly the columns asked for, and its stops unless two share a place in the route |
| TripEffects.UpdateEffect | backend/src/trips/trips.service.ts:106-167 | Checked, in order, with the values it asks for; then every column is the given value, or as before, a null meaning no change, the epoch, no notes or no stops according to its column |
| TripEffects.DecisionEffect | backend/src/trips/trips.service.ts:170-244 | Exactly READY trips are confirmed and exactly unfinished ones cancelled, each with one notice; all else is refused |
| TripEffects.SweepEffect | backend/src/trips/trips.service.ts:349-389 | Exactly the OPEN, FULL and READY trips past their deadline with seats below the minimum become CANCELLED, exactly the CONFIRMED ones past departure COMPLETED, each told once, the cancelled first, and the answer is their number |
| TripEffects.RemindEffect | backend/src/notifications/trip-reminder.job.ts:44-58 | Exactly the CONFIRMED trips departing 24 to 25 hours later are reminded, each once; nothing is stored |
| BookingEffects.RequestEffect | backend/src/bookings/bookings.service.ts:51-88 | Refused with the first of its five checks that fails; else a pending, unpaid row and one notice |
| BookingEffects.AcceptEffect | backend/src/bookings/bookings.service.ts:95-147 | Refused with the first of its five checks that fails; else a dated confirmed row, the status of the new seat sum, and READY, if newly so, before the acceptance |
| BookingEffects.RejectEffect | backend/src/bookings/bookings.service.ts:152-167 | Exactly pending bookings are rejected, dated and announced |
| BookingEffects.CancelRefusals | backend/src/bookings/bookings.service.ts:173-181 | Exactly pending and confirmed bookings can be cancelled |
| BookingEffects.WithdrawalEffect | backend/src/bookings/bookings.service.ts:183-187 | Cancelling a pending booking dates the row and tells nobody |
| BookingEffects.SeatsFreedEffect | backend/src/bookings/bookings.service.ts:183-192 | Cancelling a confirmed one dates the row and gives the trip the status of the remaining seats |
| BookingEffects.SeatsFreedAreTold | backend/src/bookings/bookings.service.ts:187-192 | and tells everybody waiting for the trip, once each, in turn, with one more than the number of those ahead, after READY if the trip becomes that |
| BookingEffects.OthersTellNobody | backend/src/waitlist/waitlist.service.ts:126-138 | No other call sends a waitlist notice |
| BookingEffects.SetPaidEffect | backend/src/bookings/bookings.service.ts:199-208 | Exactly confirmed bookings take the flag, and nothing is told |
| BookingEffects.JoinEffect | backend/src/waitlist/waitlist.service.ts:47-83 | Refused with the first of its checks that fails; else the row, and as answer one more than the number of those who joined earlier, or at the same instant with a smaller key |
| BookingEffects.JoinsAtTheEnd | backend/src/waitlist/waitlist.service.ts:47-83 | Whoever joins last is told that everybody already waiting for the trip is ahead |
| BookingEffects.LeaveEffect | backend/src/waitlist/waitlist.service.ts:85-94 | Exactly the passenger's entry for the trip is gone |
| WaitlistQueue.RankIsCount | backend/src/waitlist/waitlist.service.ts:128-131 | The rank is one more than the number of entries of the trip created earlier, or at the same instant with a smaller key |
| WaitlistQueue.FirstComeFirstServed | backend/src/waitlist/waitlist.service.ts:128-131 | Earlier entries rank first, and smaller keys at the same instant |
| WaitlistQueue.OrderedIsQuery | backend/src/waitlist/waitlist.service.ts:179-183 | The query answers exactly the rows of the trips, each once, by creation time and then key |
| WaitlistQueue.PositionsAreRanks | backend/src/waitlist/waitlist.service.ts:184-191 | The position map of the pass is the rank map, counted from the unordered table |
| WaitlistQueue.QueuePositionIsRank | backend/src/waitlist/waitlist.service.ts:128-137 | The k-th entry told about a freed seat has rank k + 1 |
| WaitlistQueue.RanksAreABijection | backend/src/waitlist/waitlist.service.ts:176-192 | On one trip the ranks are a bijection onto 1..n |
| WaitlistQueue.LeavingMovesUpThoseBehind | backend/src/waitlist/waitlist.service.ts:85-94 | After a departure exactly the entries behind on the same trip move up by one |
| Moves.CallIsAMove | backend/src/trips/trips.service.ts:68-389 | Any call does one of eight moves to any trip, its seats and its lifecycle notices |
| Moves.AcceptIsAMove | backend/src/bookings/bookings.service.ts:95-147 | A successful accept takes the booking's seats, within capacity, and rederives the status of that trip only |
| Moves.CancelSeatsIsAMove | backend/src/bookings/bookings.service.ts:173-194 | Cancelling a confirmed booking frees its seats and rederives the status of that trip only |
| Moves.SweepIsAMove | backend/src/trips/trips.service.ts:349-389 | The sweep expires or completes exactly the due trips, each with its one notice |
| Runs.CallKeepsRows | backend/src/trips/trips.service.ts:68-100 | Rows are only added; a new trip is open, without seats, within its checks and without notices |
| Runs.EveryRunLinked | backend/src/waitlist/entities/waitlist-entry.entity.ts:13-16 | In every run bookings and waitlist entries refer to existing trips, and nobody waits twice for a trip |
| Runs.EveryRunSound | backend/src/trips/trip-state-machine.ts:85-100 | In every run READY means min <= confirmed < max, FULL means confirmed >= max, 1 <= min <= max, and the cost is at least one |
| Bounds.RunExactIff | backend/src/trips/trips.service.ts:106-146 | All states of a run have exact active statuses and confirmed <= max if and only if every stored update leaves the seats below its minimum |
| Bounds.EveryRunExact | backend/src/trips/trips.service.ts:251-273 | In particular, in runs that never edit min or max every active status is exact and confirmed <= max |
| Bounds.SeatChangeRestoresStatus | backend/src/trips/trips.service.ts:246-273 | After any accept or confirmed cancellation the status is exact, whatever edits came before |
| Runs.ConfirmedWithMinimumMet | backend/src/trips/trip-state-machine.ts:72-78 | Every successful confirmation happens with min <= confirmed < max |
| Runs.MinimumEqualToCapacityNeverConfirms | backend/src/trips/trip-state-machine.ts:72-100 | A trip whose minimum equals its capacity is never confirmable as it is |
| Runs.SweepCancelsOnlyOpen | backend/src/trips/trips.service.ts:351-372 | A trip the sweep cancels is OPEN |
| Runs.NothingBookedOnFull | backend/src/bookings/bookings.service.ts:60-71 | Although FULL counts as bookable, no request and no accept succeeds on it |
| Prices.JoinTakesNoSeat | backend/src/waitlist/waitlist.service.ts:56-82 | Joining the waitlist happens with no seat left and moves no seats and no price |
| Bounds.RunWithinCapacityIff | backend/src/trips/trips.service.ts:121-146 | No state of a run has confirmed > max if and only if no stored update lowers the capacity below the seats already confirmed |
| Bounds.RunKeepsMinimumIff | backend/src/bookings/bookings.service.ts:173-194 | CONFIRMED trips keep their minimum throughout a run if and only if every cancellation on one leaves it |
| Bounds.SeatsWithinPeakCapacity | backend/src/trips/trips.service.ts:121-146 | With arbitrary edits, confirmed seats never exceed the largest capacity the trip has had |
| Edits.EveryRunEquipped | backend/src/trips/trips.service.ts:579-600 | In every run, edits and nulls included, a trip uses a vehicle of its driver and offers no more seats than it has |
| Edits.UpdateKeepsScheduleIff | backend/src/trips/trips.service.ts:125-152 | A stored update leaves deadline < departure <= concert if and only if its null dates allow it |
| Edits.RunScheduledIff | backend/src/trips/trips.service.ts:606-627 | All states of a run have deadline < departure <= concert if and only if the dates of every stored update survive |
| Edits.EveryRunScheduled | backend/src/trips/trips.service.ts:606-627 | Without null dates every stored trip keeps its deadline before its departure and departs by its concert |
| Edits.FailedCallStores | backend/src/trips/trips.service.ts:95-165 | A failing call sends nothing and leaves the database as it was, unless the trip was stored before its stops failed; then the trip is there without stops |
| Edits.NullStopsAreHalfApplied | backend/src/trips/trips.service.ts:159-164 | An input: `stops: null` beside a new minimum answers with an error, stores the minimum and loses the stops |
| Edits.EveryRunStopsDistinct | backend/src/trips/entities/trip-stop.entity.ts:13-27 | In every run no trip has two stops at the same place of its route |
| Edits.NullDepartureBreaksSchedule | backend/src/trips/dto/update-trip.dto.ts:69-71 | One accepted null departure stores a departure before the deadline |
| Runs.FinishedIsFinal | backend/src/trips/trip-state-machine.ts:51-66 | No sequence of calls changes the row of a cancelled or completed trip, or raises its seats |
| Prices.PriceAlwaysInBand | backend/src/trips/pricing.service.ts:38-60 | While no stored update lowers a capacity below the confirmed seats, upperBound <= perPerson <= lowerBound in every state |
| Prices.PriceFollowsSeats | backend/src/trips/pricing.service.ts:53-59 | After any run, of the calls that leave the trip's price terms alone only a cancellation can raise its price and only an accept can lower it |
| Notices.EveryRunAnnounced | backend/src/trips/trips.service.ts:170-273 | The notices of a trip form READY* (CONFIRMED (COMPLETED or CANCELLED)? or CANCELLED)?, CONFIRMED after a READY, with as many READYs as entries to READY |
| Notices.ConfirmedIsFrozen | backend/src/trips/trips.service.ts:106-108 | From CONFIRMED on nothing but the status of a trip changes |
| Notices.CallReminds | backend/src/notifications/trip-reminder.job.ts:44-58 | A call reminds a trip once if it is a tick with the trip in its window, else not at all |
| Notices.NeverRemindedTwice | backend/src/notifications/trip-reminder.job.ts:14-20 | With ticks at least an hour apart no trip is reminded twice in any run |
| Notices.RemindedAtLeastOnce | backend/src/notifications/trip-reminder.job.ts:44-58 | With ticks at most an hour apart a trip confirmed at a tick a day ahead, and still confirmed once the windows have passed its departure, was reminded |
| Notices.WindowsDisjointIff | backend/src/notifications/trip-reminder.job.ts:44-46 | No departure is in the windows of two ticks if and only if they are at least an hour apart |
| Notices.WindowsTouchIff | backend/src/notifications/trip-reminder.job.ts:44-46 | No departure falls between the windows of two ticks if and only if they are at most an hour apart |
| Notices.RemindedExactlyOnce | backend/src/notifications/trip-reminder.job.ts:44-58 | With ticks exactly an hour apart, a trip confirmed at a tick a day ahead, and still confirmed once the windows have passed its departure, was reminded exactly once |
| Scenarios.RideIsReminded | backend/src/notifications/trip-reminder.job.ts:44-58 | A concrete run from creation to confirmation in which the hourly job reminds the trip exactly once |
| Scenarios.ConfirmedBelowMinimum | backend/src/bookings/bookings.service.ts:173-194 | A concrete run that leaves a CONFIRMED trip below its minimum: the minimum binds confirming, not staying confirmed |
| Scenarios.EditLeavesStatusBehind | backend/src/trips/trips.service.ts:121-146 | A concrete run whose edit leaves a trip OPEN that is READY by its seats |
| Scenarios.EditOverbooks | backend/src/trips/trips.service.ts:121-146 | A concrete run whose edit leaves a trip with fewer seats than are confirmed, its price outside its band |
| Scenarios.ReadyIsAnnouncedTwice | backend/src/trips/trips.service.ts:251-273 | A concrete run through READY, FULL and READY with two notices |
| Scenarios.EarlyTickRemindsTwice | backend/src/notifications/trip-reminder.job.ts:44-58 | A concrete run with ticks less than an hour apart that reminds a trip twice |
| Scenarios.LateTickRemindsNobody | backend/src/notifications/trip-reminder.job.ts:44-58 | A concrete run with ticks more than an hour apart that never reminds a trip confirmed all along |
| Sweeps.SweepClearsTheDue | backend/src/trips/trips.service.ts:349-389 | A sweep changes exactly the due trips, leaves none due and answers with their number |
| Sweeps.SweepIsIdempotent | backend/src/trips/trips.service.ts:349-389 | A second sweep at the same instant changes and sends nothing |
| Sweeps.SweepsCompose | backend/src/trips/trips.service.ts:349-389 | Sweeping at t1 and then t2 >= t1 is one sweep at t2: same database, total and notices per trip |
| BookingRows.CallIsARowStep | backend/src/bookings/bookings.service.ts:95-208 | The only changes a booking row can see, and which call makes each |
| BookingRows.EveryRunRowsSound | backend/src/bookings/bookings.service.ts:246-260 | In every run a passenger holds at most one booking per trip, decided rows are dated, only once-confirmed seats are paid |
| BookingRows.DecidedAgainstIsFinal | backend/src/bookings/bookings.service.ts:152-194 | Rejected and cancelled bookings never change again |
| Pricing.CeilDiv | backend/src/trips/pricing.service.ts:53-58 | The quotient rounded up |
| Pricing.PriceInWords | backend/src/trips/pricing.service.ts:38-60 | A fixed price is the price and the band; a shared one is the smallest price that covers the cost when the confirmed passengers, but at least the minimum, pay it, its band likewise for the minimum and the maximum |
| Pricing.PriceFallsWithSeats | backend/src/trips/pricing.service.ts:53-54 | More confirmed seats never raise the price |
| Pricing.PriceWithinBand | backend/src/trips/pricing.service.ts:53-59 | Within capacity the price is inside its band |
| Pricing.BandIffWithinCapacity | backend/src/trips/pricing.service.ts:53-59 | Every price is inside its band if and only if the confirmed seats are within capacity |
| Pricing.OverCollectionBound | backend/src/trips/pricing.service.ts:53-54 | Seats times price covers the cost once the minimum is met and exceeds it by less than the divisor |
| Text.TrimCutsSpace | backend/src/trips/passenger-manifest.ts:20 | Trimming cuts all white space at both ends and nothing else |
| Text.LowerInWords | backend/src/trips/passenger-manifest.ts:60 | Lower-casing changes the capital letters and nothing else |
| Earnings.AggregateEarnings | frontend/src/app/features/dashboards/earnings.ts:21-57 | The fold yields, in first-seen order, one row per currency with the paid and unpaid sums and their total |
| Earnings.FirstSeenExactly | frontend/src/app/features/dashboards/earnings.ts:25-44 | There is a row for exactly the currencies of confirmed bookings with a known trip |
| Earnings.FirstSeenDistinct | frontend/src/app/features/dashboards/earnings.ts:39-54 | No currency has two rows |
| Earnings.OneBookingEarns | frontend/src/app/features/dashboards/earnings.ts:25-54 | A confirmed booking earns its seats times the price of the loaded trip, else of the embedded one, as paid or unpaid; any other earns nothing |
| Earnings.RowsAddUp | frontend/src/app/features/dashboards/earnings.ts:39-54 | What several bookings earn in a currency is the sum of what they earn |
| Earnings.RowTotalsAddUp | frontend/src/app/features/dashboards/earnings.ts:25-54 | Row totals add up to seats times price over all counting bookings |
| Earnings.RowsIgnoreOrder | frontend/src/app/features/dashboards/earnings.ts:39-56 | Reordering the bookings leaves the same rows |
| Earnings.FlippingPaidMovesAmount | frontend/src/app/features/dashboards/earnings.ts:39-56 | Flipping one paid flag either way keeps the rows, their order and totals, and moves exactly that booking's amount between paid and unpaid of its currency |
| Earnings.EarnedIsSeatsTimesPrice | frontend/src/app/features/dashboards/earnings.ts:32-36 | The earnings of one trip are its confirmed seats times its price |
| Earnings.EarningsCoverTheCost | frontend/src/app/features/dashboards/earnings.ts:25-54 | For a shared trip priced at its own seats, E < cost + max(min, confirmed), and cost <= E < cost + confirmed once the minimum is met |
| Earnings.EarningsCoverTheCosts | frontend/src/app/features/dashboards/earnings.ts:25-54 | For any number of shared trips, each priced at its own seats, the row of a currency lies between the summed costs, once all minimums are met, and that plus one less than the seats of each trip |
| Reviews.GuardInWords | backend/src/reviews/guards/review-eligibility.guard.ts:48-75 | Each verdict of the guard, in terms of the rows: logged in, known trip and concert, concert started, confirmed passenger |
| Reviews.BatchAgreesWithGuard | backend/src/reviews/reviews.service.ts:125-177 | A trip is in the batch if and only if it was asked for, the guard admits the author, and no review exists |
| Reviews.PostingTakesOneOff | backend/src/reviews/reviews.service.ts:46-60 | Posting a review takes exactly that trip off exactly that author's list |
| Reviews.ReviewsService.Create | backend/src/reviews/reviews.service.ts:41-62 | Adds the review exactly when the author has none on the trip, keeping one each |
| Listing.CountConfirmedSeatsFor | backend/src/trips/trips.service.ts:535-550 | The batched count agrees with counting each trip alone |
| Listing.HydrateTrips | backend/src/trips/trips.service.ts:420-496 | A stable sort of exactly the trips passing every filter: prices or departures never fall, or the share of taken seats never rises; the filters are stated on the shown columns, stops of a trip having distinct places |
| Listing.SortEntries | backend/src/trips/trips.service.ts:480-493 | Sorting gives a sorted permutation that leaves equal entries in their order |
| Listing.CompareTransitive | backend/src/trips/trips.service.ts:480-493 | Each comparator is transitive, the cross-multiplied ratio included |
| Listing.ListMine | backend/src/trips/trips.service.ts:302-309 | No trip lost, active ones first, each group by departure |
| Listing.ActiveThenTerminal | backend/src/trips/trip-listing.ts:16-26 | Any list sorted by the comparator splits into active then finished, each by departure |
| Manifest.BuildPassengerManifestCsv | backend/src/trips/passenger-manifest.ts:17-33 | Reading the text back gives exactly the header and, per passenger, the trimmed full name, e-mail, phone or nothing, seats in decimal, yes or no, and status |
| Manifest.FieldReadsBack | backend/src/trips/passenger-manifest.ts:48-53 | Any field value survives quoting, whatever commas, quotes, CR and LF it contains |
| Manifest.QuotedOnlyIfNeeded | backend/src/trips/passenger-manifest.ts:48-53 | A value is quoted if and only if it has a quote, comma, CR or LF |
| Manifest.RecordReadsBack | backend/src/trips/passenger-manifest.ts:21-30 | Any record of one or more fields reads back |
| Manifest.DecimalReadsBack | backend/src/trips/passenger-manifest.ts:26 | The seats column reads back as the number |
| Html.EscapeIsSubstitution | backend/src/notifications/email-templates.ts:248-254 | The four passes equal one simultaneous substitution |
| Html.EscapedCharacters | backend/src/notifications/email-templates.ts:248-254 | The entity each of the four characters becomes; every other stays |
| Html.EscapedTextIsSafeAndFaithful | backend/src/notifications/email-templates.ts:248-254 | No raw bracket or quote, every ampersand starts an entity, and decoding gives the text back |
| Filenames.SlugIsSlug | backend/src/trips/passenger-manifest.ts:55-63 | A slug is non-empty, in [a-z0-9-], without leading, trailing or doubled dash |
| Filenames.SlugIsDashedWords | backend/src/trips/passenger-manifest.ts:55-63 | A slug is the runs of letters and digits of the lower-cased text, joined by single dashes, or `unknown` if there are none |
| Filenames.SlugsAreFixedPoints | backend/src/trips/passenger-manifest.ts:55-63 | Texts of that shape are exactly the ones slugging leaves alone |
| Filenames.SlugIdempotent | backend/src/trips/passenger-manifest.ts:55-63 | Slugging twice is slugging once |
| Filenames.HeaderReadsBack | frontend/src/app/core/utils/download.ts:14-20 | Exactly the non-empty names without a quote survive the download header |
| Filenames.ManifestNameReadsBack | backend/src/trips/trips.controller.ts:57-61 | The name read from the header is exactly the manifest's file name, if and only if the date part has no quote |

## Left out

- Interleaving.NeverOverbooked: requires paid saves to be harmless, because the code does not keep the capacity without it (see `Interleaving.NeverOverbookedIff`).
- Trip status, single active booking and final states under interleaving: recomputation runs after the commit without a lock, so they are stated for calls one after another only.
- Editing a trip while an accept is in progress: the capacity is fixed in `Interleaving`.
- Pricing.Calculate: takes a minimum and a maximum of at least one, as every stored trip has; with a minimum of zero the source's lower bound is infinite, while its price, `Pricing.PerPerson`, is modelled for any minimum.
- The row order of queries without an order clause: they answer in row order here.
- Unicode normalisation and non-ASCII lower-casing in slugs and departure search; slug input is already normalised text.
- Rounding of averaged ratings and of the ratio comparison in floating point; ratings are tenths, ratios are cross-multiplied.
- Texts that are no dates: an instant is given as one, in the times of stops too.
- HTTP wiring, authentication, the ownership guards, mail, chat, Signal automation, maps and weather, the concert search, and the page size limit of the browse query.
- Deletion of users with their trips and bookings, and edits of vehicles and concerts during a run.

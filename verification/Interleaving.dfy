/** Seat capacity under concurrency.
 *
 * Any number of threads serve booking requests.  Each thread is between two of its
 * database operations; a schedule is any interleaving of those operations.  A
 * thread works on the copy of a booking it read earlier, however stale.
 * `accept` reads its booking before its transaction, then locks the trip row, sums
 * the confirmed seats, checks, writes, and commits; its write is invisible until
 * the commit, and blocks other writes of the same row.  The trip status is not
 * part of this model: whether the status check passes is the scheduler's choice.
 */
module Interleaving {
  import opened Domain
  import opened Seats

  type ThreadId = nat

  datatype Local =
    | Idle
    | RequestChecked(tripId: TripId, passengerId: UserId, seats: Positive)
    | AcceptRead(id: BookingId, copy: Booking)
    | AcceptLocked(id: BookingId, copy: Booking)
    | AcceptSummed(id: BookingId, copy: Booking, occupied: nat)
    | AcceptSaved(id: BookingId, copy: Booking)
    | RejectRead(id: BookingId, copy: Booking)
    | CancelRead(id: BookingId, copy: Booking)
    | PaidRead(id: BookingId, copy: Booking, paid: bool)

  datatype State = State(
    maxPassengers: seq<int>,
    bookings: seq<Booking>,
    locks: map<TripId, ThreadId>,
    threads: map<ThreadId, Local>)

  datatype Action =
    | CheckRequest(tripId: TripId, passengerId: UserId, seats: Positive)
    | InsertRequest
    | ReadForAccept(id: BookingId)
    | LockTrip
    | SumSeats
    | SaveAccepted(now: Instant)
    | Rollback
    | Commit
    | ReadForReject(id: BookingId)
    | SaveRejected(now: Instant)
    | ReadForCancel(id: BookingId)
    | SaveCancelled(now: Instant)
    | ReadForPaid(id: BookingId, paid: bool)
    | SavePaid

  datatype Step = Step(thread: ThreadId, action: Action)

  function At(s: State, t: ThreadId): Local {
    if t in s.threads then s.threads[t] else Idle
  }

  /** Another transaction has written this booking row and not committed yet. */
  ghost predicate RowLocked(s: State, id: BookingId) {
    exists t :: t in s.threads && s.threads[t].AcceptSaved? && s.threads[t].id == id
  }

  ghost predicate HasRow(s: State, id: BookingId, statuses: set<BookingStatus>) {
    id < |s.bookings| && s.bookings[id].status in statuses
  }

  /** The thread can take this step: it is at the right point, its check passes, and no lock blocks it.
      A check that fails ends the call: `Rollback` inside the transaction, no step at all outside it. */
  ghost predicate Enabled(s: State, step: Step) {
    var here := At(s, step.thread);
    match step.action
    case CheckRequest(tripId, _, seats) =>
      here.Idle? && tripId < |s.maxPassengers|
      && ConfirmedSeats(s.bookings, tripId) + seats <= s.maxPassengers[tripId]
    case InsertRequest => here.RequestChecked?
    case ReadForAccept(id) => here.Idle? && HasRow(s, id, {BookingStatus.Pending})
    case LockTrip => here.AcceptRead? && here.copy.tripId < |s.maxPassengers| && here.copy.tripId !in s.locks
    case SumSeats => here.AcceptLocked?
    case SaveAccepted(_) =>
      here.AcceptSummed? && here.copy.tripId < |s.maxPassengers|
      && here.occupied + here.copy.seats <= s.maxPassengers[here.copy.tripId]
      && !RowLocked(s, here.id)
    case Rollback => here.AcceptLocked? || here.AcceptSummed?
    case Commit => here.AcceptSaved? && here.id < |s.bookings|
    case ReadForReject(id) => here.Idle? && HasRow(s, id, {BookingStatus.Pending})
    case SaveRejected(_) => here.RejectRead? && here.id < |s.bookings| && !RowLocked(s, here.id)
    case ReadForCancel(id) => here.Idle? && HasRow(s, id, {BookingStatus.Pending, BookingStatus.Confirmed})
    case SaveCancelled(_) => here.CancelRead? && here.id < |s.bookings| && !RowLocked(s, here.id)
    case ReadForPaid(id, _) => here.Idle? && HasRow(s, id, {BookingStatus.Confirmed})
    case SavePaid => here.PaidRead? && here.id < |s.bookings| && !RowLocked(s, here.id)
  }

  function Goto(s: State, t: ThreadId, next: Local): State {
    s.(threads := s.threads[t := next])
  }

  ghost function Effect(s: State, step: Step): State
    requires Enabled(s, step)
  {
    var t := step.thread;
    var here := At(s, t);
    match step.action
    case CheckRequest(tripId, passengerId, seats) => Goto(s, t, RequestChecked(tripId, passengerId, seats))
    case InsertRequest =>
      var row := Booking(here.tripId, here.passengerId, here.seats, BookingStatus.Pending, false, None);
      Goto(s, t, Idle).(bookings := s.bookings + [row])
    case ReadForAccept(id) => Goto(s, t, AcceptRead(id, s.bookings[id]))
    case LockTrip => Goto(s, t, AcceptLocked(here.id, here.copy)).(locks := s.locks[here.copy.tripId := t])
    case SumSeats => Goto(s, t, AcceptSummed(here.id, here.copy, ConfirmedSeats(s.bookings, here.copy.tripId)))
    case SaveAccepted(now) =>
      Goto(s, t, AcceptSaved(here.id, here.copy.(status := BookingStatus.Confirmed, decidedAt := Some(now))))
    case Rollback => Goto(s, t, Idle).(locks := s.locks - {here.copy.tripId})
    case Commit =>
      Goto(s, t, Idle).(bookings := s.bookings[here.id := here.copy], locks := s.locks - {here.copy.tripId})
    case ReadForReject(id) => Goto(s, t, RejectRead(id, s.bookings[id]))
    case SaveRejected(now) =>
      var row := here.copy.(status := BookingStatus.Rejected, decidedAt := Some(now));
      Goto(s, t, Idle).(bookings := s.bookings[here.id := row])
    case ReadForCancel(id) => Goto(s, t, CancelRead(id, s.bookings[id]))
    case SaveCancelled(now) =>
      var row := here.copy.(status := BookingStatus.CancelledByPassenger, decidedAt := Some(now));
      Goto(s, t, Idle).(bookings := s.bookings[here.id := row])
    case ReadForPaid(id, paid) => Goto(s, t, PaidRead(id, s.bookings[id], paid))
    case SavePaid => Goto(s, t, Idle).(bookings := s.bookings[here.id := here.copy.(paid := here.paid)])
  }

  /** The schedule can be followed from `s` and ends in `s'`. */
  ghost predicate Executes(s: State, schedule: seq<Step>, s': State)
    decreases |schedule|
  {
    if schedule == [] then s' == s
    else Enabled(s, schedule[0]) && Executes(Effect(s, schedule[0]), schedule[1..], s')
  }

  /** No trip holds more confirmed seats than it offers. */
  ghost predicate Capacity(s: State) {
    forall k: nat :: k < |s.maxPassengers| ==> ConfirmedSeats(s.bookings, k) <= s.maxPassengers[k]
  }

  ghost predicate Quiescent(s: State) {
    s.locks == map[] && s.threads == map[]
  }

  /** The trip can still take these seats, or is not there at all. */
  ghost predicate Fits(s: State, tripId: TripId, seats: nat) {
    tripId < |s.maxPassengers| ==> ConfirmedSeats(s.bookings, tripId) + seats <= s.maxPassengers[tripId]
  }

  /** The seats that the accept holding the trip's lock can still add, its sum being taken: nothing if
      its check will fail, if its row is confirmed already, or if it is the row `id` itself. */
  ghost function PendingSeats(s: State, tripId: TripId, id: BookingId): nat {
    if tripId !in s.locks || tripId >= |s.maxPassengers| then 0
    else
      var holder := At(s, s.locks[tripId]);
      var adds := (holder.AcceptSaved?
                   || (holder.AcceptSummed? && holder.occupied + holder.copy.seats <= s.maxPassengers[tripId]))
                  && holder.copy.tripId == tripId && holder.id != id
                  && !HasRow(s, holder.id, {BookingStatus.Confirmed});
      if adds then holder.copy.seats else 0
  }

  /** A paid flag is saved while its row is still confirmed, or while the seats it brings back fit
      beside the confirmed ones and those the lock holder is about to confirm. */
  ghost predicate HarmlessPaid(s: State, step: Step) {
    var here := At(s, step.thread);
    step.action.SavePaid? && here.PaidRead? ==>
      HasRow(s, here.id, {BookingStatus.Confirmed})
      || Fits(s, here.copy.tripId, here.copy.seats + PendingSeats(s, here.copy.tripId, here.id))
  }

  ghost predicate PaidSavesHarmless(s: State, schedule: seq<Step>)
    decreases |schedule|
  {
    schedule != [] ==>
      HarmlessPaid(s, schedule[0])
      && (Enabled(s, schedule[0]) ==> PaidSavesHarmless(Effect(s, schedule[0]), schedule[1..]))
  }

  /** A paid flag is saved while the row it belongs to is still confirmed. */
  ghost predicate FreshPaid(s: State, step: Step) {
    var here := At(s, step.thread);
    step.action.SavePaid? && here.PaidRead? ==> HasRow(s, here.id, {BookingStatus.Confirmed})
  }

  ghost predicate PaidSavesFresh(s: State, schedule: seq<Step>)
    decreases |schedule|
  {
    schedule != [] ==>
      FreshPaid(s, schedule[0])
      && (Enabled(s, schedule[0]) ==> PaidSavesFresh(Effect(s, schedule[0]), schedule[1..]))
  }

  // ---- the invariant ----

  /** A copy agrees with its row on the two columns nobody ever changes. */
  ghost predicate CopyOf(s: State, id: BookingId, copy: Booking) {
    id < |s.bookings| && copy.tripId == s.bookings[id].tripId && copy.seats == s.bookings[id].seats
  }

  ghost predicate HoldsLock(s: State, t: ThreadId, tripId: TripId) {
    tripId < |s.maxPassengers| && tripId in s.locks && s.locks[tripId] == t
  }

  /** The trip can hold the confirmed copy in place of the row. */
  ghost predicate FitsInstead(s: State, id: BookingId, copy: Booking)
    requires CopyOf(s, id, copy) && copy.tripId < |s.maxPassengers|
  {
    ConfirmedSeats(s.bookings, copy.tripId) - Held(s.bookings[id], copy.tripId) + copy.seats
      <= s.maxPassengers[copy.tripId]
  }

  /** What a thread may rely on at its current point in every interleaving: its copy is of its row, and
      inside the transaction the lock of the trip is its own. */
  ghost predicate Placed(s: State, t: ThreadId) {
    var here := At(s, t);
    match here
    case Idle => true
    case RequestChecked(_, _, _) => true
    case AcceptRead(id, copy) => CopyOf(s, id, copy)
    case AcceptLocked(id, copy) => CopyOf(s, id, copy) && HoldsLock(s, t, copy.tripId)
    case AcceptSummed(id, copy, _) => CopyOf(s, id, copy) && HoldsLock(s, t, copy.tripId)
    case AcceptSaved(id, copy) =>
      CopyOf(s, id, copy) && HoldsLock(s, t, copy.tripId) && copy.status == BookingStatus.Confirmed
    case RejectRead(id, copy) => CopyOf(s, id, copy)
    case CancelRead(id, copy) => CopyOf(s, id, copy)
    case PaidRead(id, copy, _) => CopyOf(s, id, copy) && copy.status == BookingStatus.Confirmed
  }

  ghost predicate AllPlaced(s: State) {
    forall t: ThreadId :: Placed(s, t)
  }

  /** And what it may rely on for the seats it is about to confirm. */
  ghost predicate LocalOk(s: State, t: ThreadId) {
    var here := At(s, t);
    && Placed(s, t)
    && (here.AcceptSummed? && here.occupied + here.copy.seats <= s.maxPassengers[here.copy.tripId] ==>
          FitsInstead(s, here.id, here.copy))
    && (here.AcceptSaved? ==> FitsInstead(s, here.id, here.copy))
  }

  ghost predicate Inv(s: State) {
    Capacity(s) && forall t: ThreadId :: LocalOk(s, t)
  }

  lemma InvIsPlaced(s: State)
    requires Inv(s)
    ensures AllPlaced(s)
  {
    forall t: ThreadId ensures Placed(s, t) {
      assert LocalOk(s, t);
    }
  }

  /** A step that leaves the booking table alone, moves one thread, and takes no lock away from another. */
  lemma MoveKeepsInv(s: State, t: ThreadId, s': State)
    requires Inv(s)
    requires s'.maxPassengers == s.maxPassengers && s'.bookings == s.bookings
    requires forall u: ThreadId :: u != t ==> At(s', u) == At(s, u)
    requires forall k: TripId :: k in s.locks && s.locks[k] != t ==> k in s'.locks && s'.locks[k] == s.locks[k]
    requires LocalOk(s', t)
    ensures Inv(s')
  {
    forall u: ThreadId ensures LocalOk(s', u) {
      assert LocalOk(s, u);
    }
  }

  /** Overwriting a row without newly confirming it never raises a sum, so every thread keeps its bounds. */
  lemma LoweringSaveKeepsInv(s: State, t: ThreadId, id: BookingId, row: Booking, s': State)
    requires Inv(s) && CopyOf(s, id, row)
    requires row.status == BookingStatus.Confirmed ==> s.bookings[id].status == BookingStatus.Confirmed
    requires s' == Goto(s, t, Idle).(bookings := s.bookings[id := row])
    ensures Inv(s')
  {
    forall k: TripId
      ensures ConfirmedSeats(s'.bookings, k) + Held(s.bookings[id], k)
         == ConfirmedSeats(s.bookings, k) + Held(row, k)
    {
      SeatsAfterSave(s.bookings, id, row, k);
    }
    forall u: ThreadId ensures LocalOk(s', u) {
      assert LocalOk(s, u);
    }
  }

  lemma InsertKeepsInv(s: State, t: ThreadId, row: Booking, s': State)
    requires Inv(s) && row.status == BookingStatus.Pending
    requires s' == Goto(s, t, Idle).(bookings := s.bookings + [row])
    ensures Inv(s')
  {
    forall k: TripId ensures ConfirmedSeats(s'.bookings, k) == ConfirmedSeats(s.bookings, k) {
      SeatsAfterInsert(s.bookings, row, k);
    }
    forall u: ThreadId ensures LocalOk(s', u) {
      assert LocalOk(s, u);
    }
  }

  /** The commit: the bound the lock holder computed still covers the committed sum.  A booking that
      is already confirmed is counted on both sides, so accepting it again adds nothing. */
  lemma CommitKeepsInv(s: State, t: ThreadId)
    requires Inv(s) && Enabled(s, Step(t, Commit))
    ensures Inv(Effect(s, Step(t, Commit)))
  {
    var here := At(s, t);
    var s' := Effect(s, Step(t, Commit));
    assert LocalOk(s, t);
    forall k: TripId
      ensures ConfirmedSeats(s'.bookings, k) + Held(s.bookings[here.id], k)
         == ConfirmedSeats(s.bookings, k) + Held(here.copy, k)
    {
      SeatsAfterSave(s.bookings, here.id, here.copy, k);
    }
    forall u: ThreadId ensures LocalOk(s', u) {
      assert LocalOk(s, u);
      if u != t && At(s, u).AcceptSaved? && At(s, u).copy.tripId != here.copy.tripId {
        assert At(s, u).id != here.id;
      }
    }
  }

  /** The steps that read: they only move a thread. */
  lemma ReadKeepsInv(s: State, step: Step)
    requires Inv(s) && Enabled(s, step)
    requires step.action.CheckRequest? || step.action.ReadForAccept? || step.action.ReadForReject?
          || step.action.ReadForCancel? || step.action.ReadForPaid?
    ensures Inv(Effect(s, step))
  {
    MoveKeepsInv(s, step.thread, Effect(s, step));
  }

  /** The steps inside the transaction up to its commit. */
  lemma TransactionKeepsInv(s: State, step: Step)
    requires Inv(s) && Enabled(s, step)
    requires step.action.LockTrip? || step.action.SumSeats? || step.action.SaveAccepted? || step.action.Rollback?
    ensures Inv(Effect(s, step))
  {
    var here := At(s, step.thread);
    assert LocalOk(s, step.thread);
    MoveKeepsInv(s, step.thread, Effect(s, step));
  }

  /** The steps that take a booking out, outside any transaction. */
  lemma SaveKeepsInv(s: State, step: Step)
    requires Inv(s) && Enabled(s, step)
    requires step.action.SaveRejected? || step.action.SaveCancelled?
    ensures Inv(Effect(s, step))
  {
    var here := At(s, step.thread);
    assert LocalOk(s, step.thread);
    var s' := Effect(s, step);
    LoweringSaveKeepsInv(s, step.thread, here.id, s'.bookings[here.id], s');
  }

  /** Saving a paid flag changes the sums by the difference of the row and the copy. */
  lemma SeatsAfterPaidSave(s: State, t: ThreadId, k: TripId)
    requires AllPlaced(s) && Enabled(s, Step(t, SavePaid))
    ensures var here := At(s, t);
            && CopyOf(s, here.id, here.copy)
            && ConfirmedSeats(Effect(s, Step(t, SavePaid)).bookings, k)
                 == ConfirmedSeats(s.bookings, k)
                  + if k == here.copy.tripId && !HasRow(s, here.id, {BookingStatus.Confirmed})
                      then here.copy.seats else 0
  {
    var here := At(s, t);
    assert Placed(s, t);
    SeatsAfterSave(s.bookings, here.id, here.copy.(paid := here.paid), k);
  }

  lemma PaidSaveKeepsInv(s: State, t: ThreadId)
    requires Inv(s) && Enabled(s, Step(t, SavePaid)) && HarmlessPaid(s, Step(t, SavePaid))
    ensures Inv(Effect(s, Step(t, SavePaid)))
  {
    var s' := Effect(s, Step(t, SavePaid));
    InvIsPlaced(s);
    forall k: TripId {
      SeatsAfterPaidSave(s, t, k);
    }
    assert Capacity(s');
    forall u: ThreadId ensures LocalOk(s', u) {
      assert LocalOk(s, u) && LocalOk(s, t);
    }
  }

  lemma StepKeepsInv(s: State, step: Step)
    requires Inv(s) && Enabled(s, step) && HarmlessPaid(s, step)
    ensures Inv(Effect(s, step))
  {
    match step.action
    case InsertRequest =>
      var s' := Effect(s, step);
      InsertKeepsInv(s, step.thread, s'.bookings[|s.bookings|], s');
    case Commit => CommitKeepsInv(s, step.thread);
    case SaveRejected(_) => SaveKeepsInv(s, step);
    case SaveCancelled(_) => SaveKeepsInv(s, step);
    case SavePaid => PaidSaveKeepsInv(s, step.thread);
    case CheckRequest(_, _, _) => ReadKeepsInv(s, step);
    case ReadForAccept(_) => ReadKeepsInv(s, step);
    case ReadForReject(_) => ReadKeepsInv(s, step);
    case ReadForCancel(_) => ReadKeepsInv(s, step);
    case ReadForPaid(_, _) => ReadKeepsInv(s, step);
    case _ => TransactionKeepsInv(s, step);
  }

  lemma {:induction false} RunKeepsInv(s: State, schedule: seq<Step>, s': State)
    requires Inv(s) && Executes(s, schedule, s') && PaidSavesHarmless(s, schedule)
    ensures Inv(s')
    decreases |schedule|
  {
    if schedule != [] {
      StepKeepsInv(s, schedule[0]);
      RunKeepsInv(Effect(s, schedule[0]), schedule[1..], s');
    }
  }

  /** Two accepts can never overbook the last seat: whatever the interleaving of requests, accepts,
      rejections and cancellations, on copies however stale, no trip exceeds its capacity. */
  lemma NeverOverbooked(s: State, schedule: seq<Step>, s': State)
    requires Quiescent(s) && Capacity(s)
    requires Executes(s, schedule, s') && PaidSavesHarmless(s, schedule)
    ensures Capacity(s')
    ensures s'.maxPassengers == s.maxPassengers
  {
    RunKeepsInv(s, schedule, s');
    CapacityFixed(s, schedule, s');
  }

  lemma {:induction false} CapacityFixed(s: State, schedule: seq<Step>, s': State)
    requires Executes(s, schedule, s')
    ensures s'.maxPassengers == s.maxPassengers
    decreases |schedule|
  {
    if schedule != [] {
      CapacityFixed(Effect(s, schedule[0]), schedule[1..], s');
    }
  }

  /** Setting a paid flag in one go: its save comes right after its read. */
  predicate PaidInOneGo(schedule: seq<Step>) {
    forall i :: 0 <= i < |schedule| && schedule[i].action.SavePaid? ==>
      i > 0 && schedule[i - 1].action.ReadForPaid? && schedule[i - 1].thread == schedule[i].thread
  }

  lemma {:induction false} OneGoIsFresh(s: State, schedule: seq<Step>, s': State)
    requires Executes(s, schedule, s')
    requires forall i :: 1 <= i < |schedule| && schedule[i].action.SavePaid? ==>
               schedule[i - 1].action.ReadForPaid? && schedule[i - 1].thread == schedule[i].thread
    requires schedule != [] ==> FreshPaid(s, schedule[0])
    ensures PaidSavesFresh(s, schedule) && PaidSavesHarmless(s, schedule)
    decreases |schedule|
  {
    if schedule != [] {
      var next, rest := Effect(s, schedule[0]), schedule[1..];
      if rest != [] && rest[0].action.SavePaid? {
        assert schedule[1].action.SavePaid? && schedule[0].action.ReadForPaid?;
        assert At(next, rest[0].thread).PaidRead?;
      }
      forall i | 1 <= i < |rest| && rest[i].action.SavePaid?
        ensures rest[i - 1].action.ReadForPaid? && rest[i - 1].thread == rest[i].thread
      {
        assert schedule[i + 1] == rest[i] && schedule[i] == rest[i - 1];
      }
      OneGoIsFresh(next, rest, s');
    }
  }

  /** With the paid flag set in one go, nothing else is asked of the interleaving. */
  lemma NeverOverbookedWithPaidInOneGo(s: State, schedule: seq<Step>, s': State)
    requires Quiescent(s) && Capacity(s)
    requires Executes(s, schedule, s') && PaidInOneGo(schedule)
    ensures Capacity(s')
  {
    if schedule != [] {
      assert !schedule[0].action.SavePaid?;
    }
    OneGoIsFresh(s, schedule, s');
    NeverOverbooked(s, schedule, s');
  }

  ghost predicate InTransaction(s: State, t: ThreadId, tripId: TripId) {
    var here := At(s, t);
    (here.AcceptLocked? || here.AcceptSummed? || here.AcceptSaved?) && here.copy.tripId == tripId
  }

  // ---- the lock ----

  /** No row is removed, and none changes its trip or its seats. */
  lemma RowsStay(s: State, step: Step)
    requires AllPlaced(s) && Enabled(s, step)
    ensures var s' := Effect(s, step);
            |s.bookings| <= |s'.bookings|
            && forall id: BookingId :: id < |s.bookings| ==>
                 s'.bookings[id].tripId == s.bookings[id].tripId && s'.bookings[id].seats == s.bookings[id].seats
  {
    assert Placed(s, step.thread);
  }

  /** A step moves one thread, and takes no lock away from another. */
  lemma OthersStay(s: State, step: Step)
    requires AllPlaced(s) && Enabled(s, step)
    ensures var s' := Effect(s, step);
            && s'.maxPassengers == s.maxPassengers
            && (forall u: ThreadId :: u != step.thread ==> At(s', u) == At(s, u))
            && (forall k: TripId :: k in s.locks && s.locks[k] != step.thread ==>
                  k in s'.locks && s'.locks[k] == s.locks[k])
  {
    assert Placed(s, step.thread);
  }

  lemma ReadsPlaced(s: State, step: Step)
    requires AllPlaced(s) && Enabled(s, step) && At(s, step.thread).Idle?
    ensures Placed(Effect(s, step), step.thread)
  {
  }

  lemma TransactionPlaced(s: State, step: Step)
    requires AllPlaced(s) && Enabled(s, step)
    requires step.action.LockTrip? || step.action.SumSeats? || step.action.SaveAccepted?
    ensures Placed(Effect(s, step), step.thread)
  {
    assert Placed(s, step.thread);
  }

  lemma StepKeepsPlaced(s: State, step: Step)
    requires AllPlaced(s) && Enabled(s, step)
    ensures AllPlaced(Effect(s, step))
  {
    RowsStay(s, step);
    OthersStay(s, step);
    if At(s, step.thread).Idle? {
      ReadsPlaced(s, step);
    } else if step.action.LockTrip? || step.action.SumSeats? || step.action.SaveAccepted? {
      TransactionPlaced(s, step);
    } else {
      assert At(Effect(s, step), step.thread).Idle?;
    }
    OtherThreadsPlaced(s, step.thread, Effect(s, step));
  }

  lemma OtherThreadsPlaced(s: State, t: ThreadId, s': State)
    requires AllPlaced(s) && Placed(s', t)
    requires s'.maxPassengers == s.maxPassengers && |s.bookings| <= |s'.bookings|
    requires forall id: BookingId :: id < |s.bookings| ==>
      s'.bookings[id].tripId == s.bookings[id].tripId && s'.bookings[id].seats == s.bookings[id].seats
    requires forall u: ThreadId :: u != t ==> At(s', u) == At(s, u)
    requires forall k: TripId :: k in s.locks && s.locks[k] != t ==> k in s'.locks && s'.locks[k] == s.locks[k]
    ensures AllPlaced(s')
  {
    forall u: ThreadId ensures Placed(s', u) {
      assert Placed(s, u);
    }
  }

  /** Every sum that a lock holder took still bounds the committed one. */
  ghost predicate SumsBound(s: State) {
    forall t: ThreadId :: At(s, t).AcceptSummed? ==>
      ConfirmedSeats(s.bookings, At(s, t).copy.tripId) <= At(s, t).occupied
  }

  /** A paid flag is saved while its row is still confirmed, or the seats it brings back are within every
      sum taken for the trip. */
  ghost predicate PaidWithinSums(s: State, step: Step) {
    var here := At(s, step.thread);
    step.action.SavePaid? && here.PaidRead? && !HasRow(s, here.id, {BookingStatus.Confirmed}) ==>
      forall u: ThreadId :: At(s, u).AcceptSummed? && At(s, u).copy.tripId == here.copy.tripId ==>
        ConfirmedSeats(s.bookings, here.copy.tripId) + here.copy.seats <= At(s, u).occupied
  }

  ghost predicate PaidSavesWithinSums(s: State, schedule: seq<Step>)
    decreases |schedule|
  {
    schedule != [] ==>
      PaidWithinSums(s, schedule[0])
      && (Enabled(s, schedule[0]) ==> PaidSavesWithinSums(Effect(s, schedule[0]), schedule[1..]))
  }

  ghost predicate SumsBoundThroughout(s: State, schedule: seq<Step>)
    decreases |schedule|
  {
    SumsBound(s)
    && (schedule != [] && Enabled(s, schedule[0]) ==> SumsBoundThroughout(Effect(s, schedule[0]), schedule[1..]))
  }

  /** Only a commit and a stale paid flag add confirmed seats, the commit to the trip it holds the lock of. */
  lemma OnlyCommitsAddSeats(s: State, step: Step, k: TripId)
    requires AllPlaced(s) && Enabled(s, step) && !step.action.SavePaid?
    requires step.action.Commit? ==> k != At(s, step.thread).copy.tripId
    ensures ConfirmedSeats(Effect(s, step).bookings, k) <= ConfirmedSeats(s.bookings, k)
  {
    var here, s' := At(s, step.thread), Effect(s, step);
    assert Placed(s, step.thread);
    match step.action
    case InsertRequest => SeatsAfterInsert(s.bookings, s'.bookings[|s.bookings|], k);
    case Commit => SeatsAfterSave(s.bookings, here.id, here.copy, k);
    case SaveRejected(_) => SeatsAfterSave(s.bookings, here.id, s'.bookings[here.id], k);
    case SaveCancelled(_) => SeatsAfterSave(s.bookings, here.id, s'.bookings[here.id], k);
    case _ =>
  }

  lemma PaidSaveKeepsSumsBoundIff(s: State, t: ThreadId)
    requires AllPlaced(s) && SumsBound(s) && Enabled(s, Step(t, SavePaid))
    ensures SumsBound(Effect(s, Step(t, SavePaid))) <==> PaidWithinSums(s, Step(t, SavePaid))
  {
    var s' := Effect(s, Step(t, SavePaid));
    forall k: TripId {
      SeatsAfterPaidSave(s, t, k);
    }
    assert forall u: ThreadId :: At(s', u).AcceptSummed? <==> At(s, u).AcceptSummed?;
    assert forall u: ThreadId :: At(s', u).AcceptSummed? ==> At(s', u) == At(s, u);
  }

  lemma StepKeepsSumsBoundIff(s: State, step: Step)
    requires AllPlaced(s) && SumsBound(s) && Enabled(s, step)
    ensures SumsBound(Effect(s, step)) <==> PaidWithinSums(s, step)
  {
    if step.action.SavePaid? {
      PaidSaveKeepsSumsBoundIff(s, step.thread);
    } else {
      var s' := Effect(s, step);
      forall u: ThreadId | At(s', u).AcceptSummed?
        ensures ConfirmedSeats(s'.bookings, At(s', u).copy.tripId) <= At(s', u).occupied
      {
        assert Placed(s, u) && Placed(s, step.thread);
        if u != step.thread {
          OnlyCommitsAddSeats(s, step, At(s, u).copy.tripId);
        }
      }
    }
  }

  lemma {:induction false} RunSumsBoundIff(s: State, schedule: seq<Step>, s': State)
    requires AllPlaced(s) && SumsBound(s) && Executes(s, schedule, s')
    ensures AllPlaced(s')
    ensures SumsBoundThroughout(s, schedule) <==> PaidSavesWithinSums(s, schedule)
    decreases |schedule|
  {
    if schedule != [] {
      var next := Effect(s, schedule[0]);
      StepKeepsPlaced(s, schedule[0]);
      StepKeepsSumsBoundIff(s, schedule[0]);
      if SumsBound(next) {
        RunSumsBoundIff(next, schedule[1..], s');
      } else {
        RunKeepsPlaced(next, schedule[1..], s');
        assert !SumsBoundThroughout(next, schedule[1..]);
      }
    }
  }

  lemma {:induction false} RunKeepsPlaced(s: State, schedule: seq<Step>, s': State)
    requires AllPlaced(s) && Executes(s, schedule, s')
    ensures AllPlaced(s')
    decreases |schedule|
  {
    if schedule != [] {
      StepKeepsPlaced(s, schedule[0]);
      RunKeepsPlaced(Effect(s, schedule[0]), schedule[1..], s');
    }
  }

  /** The sum a lock holder took stays an upper bound of the committed one, at every point of a schedule, if
      and only if no paid flag brings back more seats than the sums taken leave room for. */
  lemma LockHolderBoundIff(s: State, schedule: seq<Step>, s': State)
    requires Quiescent(s) && Executes(s, schedule, s')
    ensures SumsBoundThroughout(s, schedule) <==> PaidSavesWithinSums(s, schedule)
  {
    RunSumsBoundIff(s, schedule, s');
  }

  /** Whatever the schedule, no two threads are inside the transaction for the same trip. */
  lemma LockIsExclusive(s: State, schedule: seq<Step>, s': State, t: ThreadId, u: ThreadId, tripId: TripId)
    requires Quiescent(s) && Executes(s, schedule, s')
    requires InTransaction(s', t, tripId) && InTransaction(s', u, tripId)
    ensures t == u
  {
    RunKeepsPlaced(s, schedule, s');
    assert Placed(s', t) && Placed(s', u);
  }

  lemma {:induction false} FreshIsWithinSums(s: State, schedule: seq<Step>)
    requires PaidSavesFresh(s, schedule)
    ensures PaidSavesWithinSums(s, schedule)
    decreases |schedule|
  {
    if schedule != [] && Enabled(s, schedule[0]) {
      FreshIsWithinSums(Effect(s, schedule[0]), schedule[1..]);
    }
  }

  lemma {:induction false} ThroughoutToTheEnd(s: State, schedule: seq<Step>, s': State)
    requires SumsBoundThroughout(s, schedule) && Executes(s, schedule, s')
    ensures SumsBound(s')
    decreases |schedule|
  {
    if schedule != [] {
      ThroughoutToTheEnd(Effect(s, schedule[0]), schedule[1..], s');
    }
  }

  /** So with the paid flag saved while its row is confirmed, a lock holder's sum always bounds the
      committed one, and the holder is alone in the transaction. */
  lemma LockHolderBound(s: State, schedule: seq<Step>, s': State, t: ThreadId)
    requires Quiescent(s)
    requires Executes(s, schedule, s') && PaidSavesFresh(s, schedule)
    requires At(s', t).AcceptSummed?
    ensures ConfirmedSeats(s'.bookings, At(s', t).copy.tripId) <= At(s', t).occupied
    ensures forall u: ThreadId :: InTransaction(s', u, At(s', t).copy.tripId) ==> u == t
  {
    FreshIsWithinSums(s, schedule);
    LockHolderBoundIff(s, schedule, s');
    ThroughoutToTheEnd(s, schedule, s');
    forall u: ThreadId | InTransaction(s', u, At(s', t).copy.tripId) ensures u == t {
      LockIsExclusive(s, schedule, s', t, u, At(s', t).copy.tripId);
    }
  }

  // ---- the paid flag ----

  ghost predicate NoPaidSave(schedule: seq<Step>) {
    forall step :: step in schedule ==> !step.action.SavePaid?
  }

  /** Whatever requests, accepts, rejections and cancellations follow, in whatever interleaving,
      nothing is overbooked. */
  ghost predicate Safe(s: State) {
    forall schedule, s' :: Executes(s, schedule, s') && NoPaidSave(schedule) ==> Capacity(s')
  }

  ghost predicate SafeThroughout(s: State, schedule: seq<Step>)
    decreases |schedule|
  {
    Safe(s) && (schedule != [] && Enabled(s, schedule[0]) ==> SafeThroughout(Effect(s, schedule[0]), schedule[1..]))
  }

  lemma {:induction false} NoPaidSaveIsHarmless(s: State, schedule: seq<Step>)
    requires NoPaidSave(schedule)
    ensures PaidSavesHarmless(s, schedule)
    decreases |schedule|
  {
    if schedule != [] && Enabled(s, schedule[0]) {
      NoPaidSaveIsHarmless(Effect(s, schedule[0]), schedule[1..]);
    }
  }

  lemma InvIsSafe(s: State)
    requires Inv(s)
    ensures Safe(s)
  {
    forall schedule, s' | Executes(s, schedule, s') && NoPaidSave(schedule) ensures Capacity(s') {
      NoPaidSaveIsHarmless(s, schedule);
      RunKeepsInv(s, schedule, s');
    }
  }

  lemma TwoSteps(s: State, a: Step, b: Step)
    requires Enabled(s, a) && Enabled(Effect(s, a), b)
    ensures Executes(s, [a, b], Effect(Effect(s, a), b))
  {
    assert [a, b][1..] == [b] && [b][1..] == [];
    assert Executes(Effect(s, a), [b], Effect(Effect(s, a), b));
  }

  /** The commit of a saved accept adds its seats, unless its row is confirmed already. */
  lemma CommitAddsSeats(s: State, t: ThreadId, id: BookingId, copy: Booking)
    requires At(s, t) == AcceptSaved(id, copy) && CopyOf(s, id, copy) && copy.status == BookingStatus.Confirmed
    requires !HasRow(s, id, {BookingStatus.Confirmed})
    ensures Enabled(s, Step(t, Commit))
    ensures ConfirmedSeats(Effect(s, Step(t, Commit)).bookings, copy.tripId)
         == ConfirmedSeats(s.bookings, copy.tripId) + copy.seats
  {
    SeatsAfterSave(s.bookings, id, copy, copy.tripId);
  }

  /** A step or two from here overbooks. */
  ghost predicate SoonOverbooked(s: State) {
    exists schedule, s' :: Executes(s, schedule, s') && |schedule| <= 2 && NoPaidSave(schedule) && !Capacity(s')
  }

  lemma OverbookedAtOnce(s: State)
    requires !Capacity(s)
    ensures SoonOverbooked(s)
  {
    assert Executes(s, [], s);
  }

  /** The accept has saved its row, and its seats no longer fit beside the others. */
  lemma OverbookedByCommit(s: State, t: ThreadId, id: BookingId, copy: Booking)
    requires At(s, t) == AcceptSaved(id, copy) && CopyOf(s, id, copy) && copy.status == BookingStatus.Confirmed
    requires !HasRow(s, id, {BookingStatus.Confirmed}) && !Fits(s, copy.tripId, copy.seats)
    ensures Enabled(s, Step(t, Commit)) && !Capacity(Effect(s, Step(t, Commit)))
    ensures SoonOverbooked(s)
  {
    CommitAddsSeats(s, t, id, copy);
    var s' := Effect(s, Step(t, Commit));
    assert ConfirmedSeats(s'.bookings, copy.tripId) > s'.maxPassengers[copy.tripId];
    ExecutesStep(s, [Step(t, Commit)], s');
  }

  /** The same for an accept that has taken its sum and not saved yet. */
  lemma OverbookedBySaveAndCommit(s: State, t: ThreadId)
    requires At(s, t).AcceptSummed? && Enabled(s, Step(t, SaveAccepted(0))) && CopyOf(s, At(s, t).id, At(s, t).copy)
    requires !HasRow(s, At(s, t).id, {BookingStatus.Confirmed}) && !Fits(s, At(s, t).copy.tripId, At(s, t).copy.seats)
    ensures SoonOverbooked(s)
  {
    var saved := Effect(s, Step(t, SaveAccepted(0)));
    OverbookedByCommit(saved, t, At(s, t).id, At(saved, t).copy);
    TwoSteps(s, Step(t, SaveAccepted(0)), Step(t, Commit));
  }

  /** After a paid save that is not harmless, two more steps of the lock holder are enough to overbook. */
  lemma HarmfulPaidSaveOverbooks(s: State, t: ThreadId)
    requires Inv(s) && Enabled(s, Step(t, SavePaid)) && !HarmlessPaid(s, Step(t, SavePaid))
    ensures SoonOverbooked(Effect(s, Step(t, SavePaid)))
  {
    var here, s1 := At(s, t), Effect(s, Step(t, SavePaid));
    var trip := here.copy.tripId;
    InvIsPlaced(s);
    SeatsAfterPaidSave(s, t, trip);
    if Fits(s, trip, here.copy.seats) {
      var u := s.locks[trip];
      assert LocalOk(s, u);
      if At(s, u).AcceptSaved? {
        OverbookedByCommit(s1, u, At(s, u).id, At(s, u).copy);
      } else {
        assert !RowLocked(s1, At(s, u).id) by {
          forall v | v in s1.threads && s1.threads[v].AcceptSaved? ensures s1.threads[v].id != At(s, u).id {
            assert LocalOk(s, v);
          }
        }
        OverbookedBySaveAndCommit(s1, u);
      }
    } else {
      assert ConfirmedSeats(s1.bookings, trip) > s1.maxPassengers[trip];
      OverbookedAtOnce(s1);
    }
  }

  /** The exact condition for one paid save: nothing that follows can overbook if and only if the save is harmless. */
  lemma PaidSaveSafeIff(s: State, t: ThreadId)
    requires Inv(s) && Enabled(s, Step(t, SavePaid))
    ensures Safe(Effect(s, Step(t, SavePaid))) <==> HarmlessPaid(s, Step(t, SavePaid))
  {
    if HarmlessPaid(s, Step(t, SavePaid)) {
      PaidSaveKeepsInv(s, t);
      InvIsSafe(Effect(s, Step(t, SavePaid)));
    } else {
      HarmfulPaidSaveOverbooks(s, t);
    }
  }

  lemma {:induction false} RunSafeIff(s: State, schedule: seq<Step>, s': State)
    requires Inv(s) && Executes(s, schedule, s')
    ensures SafeThroughout(s, schedule) <==> PaidSavesHarmless(s, schedule)
    decreases |schedule|
  {
    InvIsSafe(s);
    if schedule != [] {
      var step, next := schedule[0], Effect(s, schedule[0]);
      if HarmlessPaid(s, step) {
        StepKeepsInv(s, step);
        RunSafeIff(next, schedule[1..], s');
      } else {
        PaidSaveSafeIff(s, step.thread);
        assert !SafeThroughout(next, schedule[1..]);
      }
    }
  }

  /** And for whole schedules: no point of a schedule is followed by an overbooking if and only if all
      its paid saves are harmless. */
  lemma NeverOverbookedIff(s: State, schedule: seq<Step>, s': State)
    requires Quiescent(s) && Capacity(s) && Executes(s, schedule, s')
    ensures SafeThroughout(s, schedule) <==> PaidSavesHarmless(s, schedule)
  {
    RunSafeIff(s, schedule, s');
  }

  const HOLDER := Booking(0, 7, 1, BookingStatus.Confirmed, false, Some(0))
  const WAITING := Booking(0, 8, 1, BookingStatus.Pending, false, None)
  const GONE := HOLDER.(status := BookingStatus.CancelledByPassenger, decidedAt := Some(10))
  const ACCEPTED := WAITING.(status := BookingStatus.Confirmed, decidedAt := Some(20))

  /** One seat: a confirmed booking holds it, a pending one waits. */
  const ONE_SEAT := State([1], [HOLDER, WAITING], map[], map[])
  const FREED := State([1], [GONE, WAITING], map[], map[1 := PaidRead(0, HOLDER, true), 2 := Idle])
  const RESOLD := State([1], [GONE, ACCEPTED], map[], map[1 := PaidRead(0, HOLDER, true), 2 := Idle, 3 := Idle])
  const SOLD_TWICE := State([1], [HOLDER.(paid := true), ACCEPTED], map[], map[1 := Idle, 2 := Idle, 3 := Idle])

  /** Schedules in which a stale paid flag revives a cancelled booking: after its seat was given away,
      and between the sum and the commit of the accept that gives it away. */
  const CANCEL_STEPS := [Step(1, ReadForPaid(0, true)), Step(2, ReadForCancel(0)), Step(2, SaveCancelled(10))]
  const ACCEPT_STEPS := [Step(3, ReadForAccept(1)), Step(3, LockTrip), Step(3, SumSeats),
      Step(3, SaveAccepted(20)), Step(3, Commit)]
  const STALE_PAID_SCHEDULE := CANCEL_STEPS + (ACCEPT_STEPS + [Step(1, SavePaid)])
  const OVERTAKEN_SCHEDULE := CANCEL_STEPS + (ACCEPT_STEPS[..3] + ([Step(1, SavePaid)] + ACCEPT_STEPS[3..]))

  lemma {:induction false} ExecutesInParts(s: State, first: seq<Step>, mid: State, second: seq<Step>, s': State)
    requires Executes(s, first, mid) && Executes(mid, second, s')
    ensures Executes(s, first + second, s')
    decreases |first|
  {
    if first == [] {
      assert first + second == second;
    } else {
      ExecutesInParts(Effect(s, first[0]), first[1..], mid, second, s');
      assert (first + second)[0] == first[0] && (first + second)[1..] == first[1..] + second;
      ExecutesStep(s, first + second, s');
    }
  }

  lemma ExecutesStep(s: State, schedule: seq<Step>, s': State)
    requires schedule != [] && Enabled(s, schedule[0]) && Executes(Effect(s, schedule[0]), schedule[1..], s')
    ensures Executes(s, schedule, s')
  {
  }

  lemma SeatIsFreed()
    ensures Executes(ONE_SEAT, CANCEL_STEPS, FREED)
  {
    var s1 := Effect(ONE_SEAT, CANCEL_STEPS[0]);
    var s2 := Effect(s1, CANCEL_STEPS[1]);
    assert Effect(s2, CANCEL_STEPS[2]) == FREED;
    assert Executes(FREED, CANCEL_STEPS[3..], FREED);
    assert Executes(s2, CANCEL_STEPS[2..], FREED);
    assert Executes(s1, CANCEL_STEPS[1..], FREED);
  }

  const SUMMED := FREED.(locks := map[0 := 3], threads := FREED.threads[3 := AcceptSummed(1, WAITING, 0)])

  lemma SeatIsCounted()
    ensures Executes(FREED, ACCEPT_STEPS[..3], SUMMED)
  {
    assert ConfirmedSeats(FREED.bookings[..1], 0) == 0;
    var s1 := Effect(FREED, ACCEPT_STEPS[0]);
    var s2 := Effect(s1, ACCEPT_STEPS[1]);
    assert Effect(s2, ACCEPT_STEPS[2]) == SUMMED;
    var steps := ACCEPT_STEPS[..3];
    assert Executes(SUMMED, steps[3..], SUMMED);
    assert Executes(s2, steps[2..], SUMMED);
    assert Executes(s1, steps[1..], SUMMED);
  }

  lemma SeatIsCommitted()
    ensures Executes(SUMMED, ACCEPT_STEPS[3..], RESOLD)
  {
    TwoSteps(SUMMED, Step(3, SaveAccepted(20)), Step(3, Commit));
    assert ACCEPT_STEPS[3..] == [Step(3, SaveAccepted(20)), Step(3, Commit)];
    assert Effect(Effect(SUMMED, Step(3, SaveAccepted(20))), Step(3, Commit)) == RESOLD;
  }

  lemma SeatIsResold()
    ensures Executes(FREED, ACCEPT_STEPS, RESOLD)
  {
    SeatIsCounted();
    SeatIsCommitted();
    ExecutesInParts(FREED, ACCEPT_STEPS[..3], SUMMED, ACCEPT_STEPS[3..], RESOLD);
    assert ACCEPT_STEPS == ACCEPT_STEPS[..3] + ACCEPT_STEPS[3..];
  }

  lemma SeatIsSoldTwice()
    ensures Capacity(ONE_SEAT) && !Capacity(SOLD_TWICE)
  {
    assert ConfirmedSeats(ONE_SEAT.bookings[..1], 0) == 1;
    assert ConfirmedSeats(SOLD_TWICE.bookings[..1], 0) == 1;
    assert ConfirmedSeats(SOLD_TWICE.bookings, 0) == 2;
  }

  lemma PaidFlagIsSaved()
    ensures Executes(RESOLD, [Step(1, SavePaid)], SOLD_TWICE)
  {
    assert Effect(RESOLD, Step(1, SavePaid)) == SOLD_TWICE;
    assert Executes(SOLD_TWICE, [Step(1, SavePaid)][1..], SOLD_TWICE);
  }

  /** Without the freshness condition the capacity is not safe: this schedule sells the seat twice. */
  lemma StalePaidSaveOverbooks()
    ensures Quiescent(ONE_SEAT) && Capacity(ONE_SEAT)
    ensures Executes(ONE_SEAT, STALE_PAID_SCHEDULE, SOLD_TWICE)
    ensures !Capacity(SOLD_TWICE)
  {
    SeatIsSoldTwice();
    SeatIsFreed();
    SeatIsResold();
    PaidFlagIsSaved();
    ExecutesInParts(FREED, ACCEPT_STEPS, RESOLD, [Step(1, SavePaid)], SOLD_TWICE);
    ExecutesInParts(ONE_SEAT, CANCEL_STEPS, FREED, ACCEPT_STEPS + [Step(1, SavePaid)], SOLD_TWICE);
  }

  const REVIVED := SUMMED.(bookings := [HOLDER.(paid := true), WAITING], threads := SUMMED.threads[1 := Idle])

  lemma FlagOvertakesCommit()
    ensures Executes(SUMMED, [Step(1, SavePaid)], REVIVED) && Capacity(REVIVED)
  {
    assert Effect(SUMMED, Step(1, SavePaid)) == REVIVED;
    assert Executes(REVIVED, [Step(1, SavePaid)][1..], REVIVED);
    assert ConfirmedSeats(REVIVED.bookings[..1], 0) == 1;
  }

  lemma CommitFollowsFlag()
    ensures Executes(REVIVED, ACCEPT_STEPS[3..], SOLD_TWICE)
  {
    TwoSteps(REVIVED, Step(3, SaveAccepted(20)), Step(3, Commit));
    assert ACCEPT_STEPS[3..] == [Step(3, SaveAccepted(20)), Step(3, Commit)];
    assert Effect(Effect(REVIVED, Step(3, SaveAccepted(20))), Step(3, Commit)) == SOLD_TWICE;
  }

  /** Nor is it enough that the seats fit at the moment of the save: here the trip is within capacity
      right after it, and the lock holder then commits on a sum taken before. */
  lemma FittingPaidSaveOverbooks()
    ensures Executes(ONE_SEAT, OVERTAKEN_SCHEDULE, SOLD_TWICE) && !Capacity(SOLD_TWICE)
    ensures Executes(ONE_SEAT, CANCEL_STEPS + (ACCEPT_STEPS[..3] + [Step(1, SavePaid)]), REVIVED) && Capacity(REVIVED)
  {
    SeatIsSoldTwice();
    SeatIsFreed();
    SeatIsCounted();
    FlagOvertakesCommit();
    CommitFollowsFlag();
    var flag := [Step(1, SavePaid)];
    ExecutesInParts(SUMMED, flag, REVIVED, ACCEPT_STEPS[3..], SOLD_TWICE);
    ExecutesInParts(FREED, ACCEPT_STEPS[..3], SUMMED, flag + ACCEPT_STEPS[3..], SOLD_TWICE);
    ExecutesInParts(ONE_SEAT, CANCEL_STEPS, FREED, ACCEPT_STEPS[..3] + (flag + ACCEPT_STEPS[3..]), SOLD_TWICE);
    ExecutesInParts(FREED, ACCEPT_STEPS[..3], SUMMED, flag, REVIVED);
    ExecutesInParts(ONE_SEAT, CANCEL_STEPS, FREED, ACCEPT_STEPS[..3] + flag, REVIVED);
  }
}

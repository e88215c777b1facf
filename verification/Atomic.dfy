/** Calls served one at a time are schedules of the interleaved steps: a thread that is not interrupted takes
 * all its steps if and only if the call succeeds, and leaves the booking table the call leaves.
 */
module Atomic {
  import opened Domain
  import opened Seats
  import opened Lifecycle
  import opened Moves
  import I = Interleaving

  /** The database between two calls. */
  function Quiet(w: World): I.State {
    I.State(seq(|w.trips|, i requires 0 <= i < |w.trips| => w.trips[i].maxPassengers), w.bookings, map[], map[])
  }

  /** The thread can take all the steps, and whenever it has, the bookings are these and nothing is locked. */
  ghost predicate Leaves(s: I.State, schedule: seq<I.Step>, bookings: seq<Booking>) {
    (exists s' :: I.Executes(s, schedule, s'))
    && forall s' :: I.Executes(s, schedule, s') ==> s'.bookings == bookings && s'.locks == map[]
  }

  ghost predicate Stuck(s: I.State, schedule: seq<I.Step>) {
    forall s' :: !I.Executes(s, schedule, s')
  }

  lemma FirstStep(s: I.State, step: I.Step, rest: seq<I.Step>, s': I.State)
    ensures I.Executes(s, [step] + rest, s') <==> I.Enabled(s, step) && I.Executes(I.Effect(s, step), rest, s')
  {
    assert ([step] + rest)[1..] == rest;
  }

  lemma LeavesAfter(s: I.State, step: I.Step, rest: seq<I.Step>, bookings: seq<Booking>)
    requires I.Enabled(s, step) && Leaves(I.Effect(s, step), rest, bookings)
    ensures Leaves(s, [step] + rest, bookings)
  {
    forall s' ensures I.Executes(s, [step] + rest, s') <==> I.Executes(I.Effect(s, step), rest, s') {
      FirstStep(s, step, rest, s');
    }
  }

  lemma StuckAfter(s: I.State, step: I.Step, rest: seq<I.Step>)
    requires I.Enabled(s, step) ==> Stuck(I.Effect(s, step), rest)
    ensures Stuck(s, [step] + rest)
  {
    forall s' ensures !I.Executes(s, [step] + rest, s') {
      FirstStep(s, step, rest, s');
    }
  }

  lemma LeavesAtEnd(s: I.State)
    requires s.locks == map[]
    ensures Leaves(s, [], s.bookings)
  {
    assert I.Executes(s, [], s);
  }

  lemma TwoStepsLeave(s: I.State, a: I.Step, b: I.Step)
    requires I.Enabled(s, a) && I.Enabled(I.Effect(s, a), b)
    requires I.Effect(I.Effect(s, a), b).locks == map[]
    ensures Leaves(s, [a] + [b], I.Effect(I.Effect(s, a), b).bookings)
  {
    LeavesAtEnd(I.Effect(I.Effect(s, a), b));
    LeavesAfter(I.Effect(s, a), b, [], I.Effect(I.Effect(s, a), b).bookings);
    assert [b] + [] == [b];
    LeavesAfter(s, a, [b], I.Effect(I.Effect(s, a), b).bookings);
  }

  // ---- one save ----

  lemma RejectAlone(w: World, id: BookingId, now: Instant, t: I.ThreadId)
    ensures var steps := [I.Step(t, I.ReadForReject(id))] + [I.Step(t, I.SaveRejected(now))];
            var o := Reject(w, id, now);
            if o.response.Ok? then Leaves(Quiet(w), steps, o.world.bookings) else Stuck(Quiet(w), steps)
  {
    var a, b := I.Step(t, I.ReadForReject(id)), I.Step(t, I.SaveRejected(now));
    if Reject(w, id, now).response.Ok? {
      TwoStepsLeave(Quiet(w), a, b);
    } else {
      StuckAfter(Quiet(w), a, [b]);
    }
  }

  lemma CancelAlone(w: World, id: BookingId, now: Instant, t: I.ThreadId)
    requires Linked(w)
    ensures var steps := [I.Step(t, I.ReadForCancel(id))] + [I.Step(t, I.SaveCancelled(now))];
            var o := CancelSeats(w, id, now);
            if o.response.Ok? then Leaves(Quiet(w), steps, o.world.bookings) else Stuck(Quiet(w), steps)
  {
    var a, b := I.Step(t, I.ReadForCancel(id)), I.Step(t, I.SaveCancelled(now));
    assert id < |w.bookings| ==> w.bookings[id] in w.bookings;
    if CancelSeats(w, id, now).response.Ok? {
      TwoStepsLeave(Quiet(w), a, b);
    } else {
      StuckAfter(Quiet(w), a, [b]);
    }
  }

  lemma SetPaidAlone(w: World, id: BookingId, paid: bool, t: I.ThreadId)
    ensures var steps := [I.Step(t, I.ReadForPaid(id, paid))] + [I.Step(t, I.SavePaid)];
            var o := MarkPaid(w, id, paid);
            if o.response.Ok? then Leaves(Quiet(w), steps, o.world.bookings) else Stuck(Quiet(w), steps)
  {
    var a, b := I.Step(t, I.ReadForPaid(id, paid)), I.Step(t, I.SavePaid);
    if MarkPaid(w, id, paid).response.Ok? {
      TwoStepsLeave(Quiet(w), a, b);
    } else {
      StuckAfter(Quiet(w), a, [b]);
    }
  }

  // ---- requests ----

  /** The checks of a request that the interleaved model leaves to the scheduler. */
  predicate MayRequest(w: World, tripId: TripId, passengerId: UserId) {
    tripId < |w.trips| ==>
      w.trips[tripId].driverId != passengerId
      && w.trips[tripId].status in {TripStatus.Open, TripStatus.Full, TripStatus.Ready}
      && !HasActiveBooking(w.bookings, tripId, passengerId)
  }

  lemma RequestAlone(w: World, tripId: TripId, passengerId: UserId, seats: Positive, t: I.ThreadId)
    requires MayRequest(w, tripId, passengerId)
    ensures var steps := [I.Step(t, I.CheckRequest(tripId, passengerId, seats))] + [I.Step(t, I.InsertRequest)];
            var o := Request(w, tripId, passengerId, seats);
            if o.response.Ok? then Leaves(Quiet(w), steps, o.world.bookings) else Stuck(Quiet(w), steps)
  {
    var a, b := I.Step(t, I.CheckRequest(tripId, passengerId, seats)), I.Step(t, I.InsertRequest);
    if Request(w, tripId, passengerId, seats).response.Ok? {
      TwoStepsLeave(Quiet(w), a, b);
    } else {
      StuckAfter(Quiet(w), a, [b]);
    }
  }

  // ---- the transaction of an accept ----

  /** The check of an accept that the interleaved model leaves to the scheduler. */
  predicate MayAccept(w: World, id: BookingId) {
    id < |w.bookings| && w.bookings[id].tripId < |w.trips| ==>
      w.trips[w.bookings[id].tripId].status in {TripStatus.Open, TripStatus.Full, TripStatus.Ready}
  }

  function Prepare(id: BookingId, t: I.ThreadId): seq<I.Step> {
    [I.Step(t, I.ReadForAccept(id))] + ([I.Step(t, I.LockTrip)] + [I.Step(t, I.SumSeats)])
  }

  function SaveAndCommit(now: Instant, t: I.ThreadId): seq<I.Step> {
    [I.Step(t, I.SaveAccepted(now))] + [I.Step(t, I.Commit)]
  }

  /** The state in which the lock holder has its sum. */
  function Summed(w: World, id: BookingId, t: I.ThreadId): I.State
    requires id < |w.bookings|
  {
    var copy := w.bookings[id];
    Quiet(w).(locks := map[copy.tripId := t],
              threads := map[t := I.AcceptSummed(id, copy, ConfirmedSeats(w.bookings, copy.tripId))])
  }

  lemma PrepareEnds(w: World, id: BookingId, t: I.ThreadId)
    ensures if id < |w.bookings| && w.bookings[id].status == BookingStatus.Pending && w.bookings[id].tripId < |w.trips|
            then forall s' :: I.Executes(Quiet(w), Prepare(id, t), s') <==> s' == Summed(w, id, t)
            else Stuck(Quiet(w), Prepare(id, t))
  {
    var a, b, c := I.Step(t, I.ReadForAccept(id)), I.Step(t, I.LockTrip), I.Step(t, I.SumSeats);
    var s0 := Quiet(w);
    forall s' ensures I.Executes(s0, Prepare(id, t), s')
        <==> I.Enabled(s0, a) && I.Executes(I.Effect(s0, a), [b] + [c], s')
    {
      FirstStep(s0, a, [b] + [c], s');
    }
    if I.Enabled(s0, a) {
      var s1 := I.Effect(s0, a);
      forall s' ensures I.Executes(s1, [b] + [c], s') <==> I.Enabled(s1, b) && I.Executes(I.Effect(s1, b), [c], s') {
        FirstStep(s1, b, [c], s');
      }
      if I.Enabled(s1, b) {
        LastStep(I.Effect(s1, b), c);
        assert I.Effect(I.Effect(s1, b), c) == Summed(w, id, t);
      }
    }
  }

  lemma LastStep(s: I.State, step: I.Step)
    ensures forall s' :: I.Executes(s, [step], s') <==> I.Enabled(s, step) && s' == I.Effect(s, step)
  {
    forall s' ensures I.Executes(s, [step], s') <==> I.Enabled(s, step) && s' == I.Effect(s, step) {
      FirstStep(s, step, [], s');
      assert [step] + [] == [step];
    }
  }

  /** From the sum on, the accept goes through exactly when the seats fit. */
  lemma SaveAndCommitEnds(w: World, id: BookingId, now: Instant, t: I.ThreadId)
    requires id < |w.bookings| && w.bookings[id].status == BookingStatus.Pending && w.bookings[id].tripId < |w.trips|
    requires MayAccept(w, id)
    ensures var o := Accept(w, id, now);
            if o.response.Ok? then Leaves(Summed(w, id, t), SaveAndCommit(now, t), o.world.bookings)
            else Stuck(Summed(w, id, t), SaveAndCommit(now, t))
  {
    var s := Summed(w, id, t);
    var a, b := I.Step(t, I.SaveAccepted(now)), I.Step(t, I.Commit);
    if Accept(w, id, now).response.Ok? {
      TwoStepsLeave(s, a, b);
    } else {
      StuckAfter(s, a, [b]);
    }
  }

  /** An accept that is not interrupted takes its five steps if and only if it succeeds. */
  lemma AcceptAlone(w: World, id: BookingId, now: Instant, t: I.ThreadId)
    requires MayAccept(w, id)
    ensures var o := Accept(w, id, now);
            if o.response.Ok? then Leaves(Quiet(w), Prepare(id, t) + SaveAndCommit(now, t), o.world.bookings)
            else Stuck(Quiet(w), Prepare(id, t) + SaveAndCommit(now, t))
  {
    PrepareEnds(w, id, t);
    if id < |w.bookings| && w.bookings[id].status == BookingStatus.Pending && w.bookings[id].tripId < |w.trips| {
      SaveAndCommitEnds(w, id, now, t);
      PartsExecute(Quiet(w), Prepare(id, t), Summed(w, id, t), SaveAndCommit(now, t));
    } else {
      StuckEarly(Quiet(w), Prepare(id, t), SaveAndCommit(now, t));
    }
  }

  lemma PartsExecute(s: I.State, first: seq<I.Step>, mid: I.State, second: seq<I.Step>)
    requires forall s' :: I.Executes(s, first, s') <==> s' == mid
    ensures forall s' :: I.Executes(s, first + second, s') <==> I.Executes(mid, second, s')
  {
    forall s' ensures I.Executes(s, first + second, s') <==> I.Executes(mid, second, s') {
      if I.Executes(mid, second, s') {
        I.ExecutesInParts(s, first, mid, second, s');
      }
      if I.Executes(s, first + second, s') {
        var between := Halfway(s, first, second, s');
      }
    }
  }

  lemma {:induction false} Halfway(s: I.State, first: seq<I.Step>, second: seq<I.Step>, s': I.State)
    returns (mid: I.State)
    requires I.Executes(s, first + second, s')
    ensures I.Executes(s, first, mid) && I.Executes(mid, second, s')
    decreases |first|
  {
    if first == [] {
      assert first + second == second;
      mid := s;
    } else {
      assert (first + second)[0] == first[0] && (first + second)[1..] == first[1..] + second;
      mid := Halfway(I.Effect(s, first[0]), first[1..], second, s');
      I.ExecutesStep(s, first, mid);
    }
  }

  lemma StuckEarly(s: I.State, first: seq<I.Step>, second: seq<I.Step>)
    requires Stuck(s, first)
    ensures Stuck(s, first + second)
  {
    forall s' ensures !I.Executes(s, first + second, s') {
      if I.Executes(s, first + second, s') {
        var between := Halfway(s, first, second, s');
        assert false;
      }
    }
  }
}

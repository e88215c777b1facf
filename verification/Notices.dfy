/** The lifecycle notifications of a trip over a whole run. */
module Notices {
  import opened Domain
  import opened StateMachine
  import opened Lifecycle
  import opened Moves
  import opened Runs

  function Readies(t: TripId, k: nat): seq<Notification> {
    seq(k, _ => TripReady(t))
  }

  /** What a trip in this status has announced so far: `READY* (CONFIRMED (COMPLETED | CANCELLED)? | CANCELLED)?`
      with exactly `k` READYs, at least one of them before any CONFIRMED. */
  ghost predicate Announced(life: seq<Notification>, t: TripId, k: nat, status: TripStatus) {
    match status
    case Open => life == Readies(t, k)
    case Full => life == Readies(t, k)
    case Ready => life == Readies(t, k) && k >= 1
    case Confirmed => life == Readies(t, k) + [TripConfirmed(t)] && k >= 1
    case Completed => life == Readies(t, k) + [TripConfirmed(t), TripCompleted(t)] && k >= 1
    case Cancelled =>
      life == Readies(t, k) + [TripCancelled(t)]
      || (life == Readies(t, k) + [TripConfirmed(t), TripCancelled(t)] && k >= 1)
  }

  predicate EntersReady(w: World, call: Call, t: TripId) {
    var w' := Apply(w, call).world;
    t < |w.trips| && t < |w'.trips|
    && w.trips[t].status != TripStatus.Ready && w'.trips[t].status == TripStatus.Ready
  }

  /** How many calls of the run took the trip into READY from another status. */
  function ReadyEntries(w: World, calls: seq<Call>, t: TripId): nat {
    if calls == [] then 0
    else
      var before, call := calls[..|calls| - 1], calls[|calls| - 1];
      ReadyEntries(w, before, t) + if EntersReady(After(w, before), call, t) then 1 else 0
  }

  lemma ReadiesAppend(t: TripId, k: nat)
    ensures Readies(t, k) + [TripReady(t)] == Readies(t, k + 1)
  {
  }

  lemma MoveKeepsAnnounced(t: TripId, m: Move, a: View, b: View, sent: seq<Notification>, life: seq<Notification>,
                           k: nat)
    requires Moved(t, m, a, b, sent)
    requires Announced(life, t, k, a.trip.status)
    ensures Announced(life + sent, t,
                      k + if a.trip.status != TripStatus.Ready && b.trip.status == TripStatus.Ready then 1 else 0,
                      b.trip.status)
  {
    ReadiesAppend(t, k);
    assert life + [] == life;
  }

  ghost predicate AnnouncedAfter(w: World, calls: seq<Call>, t: TripId) {
    var life := Life(Log(w, calls), t);
    if t < |After(w, calls).trips|
    then Announced(life, t, ReadyEntries(w, calls, t), After(w, calls).trips[t].status)
    else life == [] && ReadyEntries(w, calls, t) == 0
  }

  lemma LifeGrows(w0: World, calls: seq<Call>, t: TripId)
    requires calls != []
    ensures Life(Log(w0, calls), t)
         == Life(Log(w0, calls[..|calls| - 1]), t)
          + Life(Apply(After(w0, calls[..|calls| - 1]), calls[|calls| - 1]).sent, t)
  {
    LifeConcat(Log(w0, calls[..|calls| - 1]), Apply(After(w0, calls[..|calls| - 1]), calls[|calls| - 1]).sent, t);
  }

  lemma ExistingTripKeepsAnnounced(w0: World, calls: seq<Call>, t: TripId)
    requires calls != [] && Linked(After(w0, calls[..|calls| - 1])) && t < |After(w0, calls[..|calls| - 1]).trips|
    requires AnnouncedAfter(w0, calls[..|calls| - 1], t)
    ensures AnnouncedAfter(w0, calls, t)
  {
    var before, call := calls[..|calls| - 1], calls[|calls| - 1];
    var w := After(w0, before);
    var m := CallIsAMove(w, call, t);
    MoveKeepsAnnounced(t, m, ViewOf(w, t), ViewOf(Apply(w, call).world, t), Life(Apply(w, call).sent, t),
                       Life(Log(w0, before), t), ReadyEntries(w0, before, t));
    LifeGrows(w0, calls, t);
  }

  lemma NewTripIsAnnounced(w0: World, calls: seq<Call>, t: TripId)
    requires calls != [] && Linked(After(w0, calls[..|calls| - 1])) && t >= |After(w0, calls[..|calls| - 1]).trips|
    requires AnnouncedAfter(w0, calls[..|calls| - 1], t)
    ensures AnnouncedAfter(w0, calls, t)
  {
    var before, call := calls[..|calls| - 1], calls[|calls| - 1];
    var w := After(w0, before);
    CallKeepsRows(w, call);
    LifeGrows(w0, calls, t);
    assert Life(Log(w0, calls), t) == Life(Apply(w, call).sent, t) == [];
    assert ReadyEntries(w0, calls, t) == 0;
    assert Readies(t, 0) == [];
  }

  /** In every run the notifications of a trip follow the state machine, and the number of READYs is the
      number of times READY was entered, coming back from FULL included. */
  lemma {:induction false} EveryRunAnnounced(vehicles: seq<Vehicle>, concerts: seq<Concert>, calls: seq<Call>,
                                             t: TripId)
    ensures AnnouncedAfter(Fresh(vehicles, concerts), calls, t)
  {
    if calls != [] {
      EveryRunAnnounced(vehicles, concerts, calls[..|calls| - 1], t);
      EveryRunLinked(vehicles, concerts, calls[..|calls| - 1]);
      if t < |After(Fresh(vehicles, concerts), calls[..|calls| - 1]).trips| {
        ExistingTripKeepsAnnounced(Fresh(vehicles, concerts), calls, t);
      } else {
        NewTripIsAnnounced(Fresh(vehicles, concerts), calls, t);
      }
    }
  }

  // ---- the day-before reminder ----

  function RemindersTo(log: seq<Notification>, t: TripId): nat {
    if log == [] then 0
    else RemindersTo(log[..|log| - 1], t) + if log[|log| - 1] == TripReminder(t) then 1 else 0
  }

  lemma {:induction false} RemindersConcat(a: seq<Notification>, b: seq<Notification>, t: TripId)
    ensures RemindersTo(a + b, t) == RemindersTo(a, t) + RemindersTo(b, t)
  {
    if b == [] {
      assert a + b == a;
    } else {
      RemindersConcat(a, b[..|b| - 1], t);
      assert (a + b)[..|a + b| - 1] == a + b[..|b| - 1];
    }
  }

  lemma {:induction false} NoReminders(log: seq<Notification>, t: TripId)
    requires TripReminder(t) !in log
    ensures RemindersTo(log, t) == 0
  {
    if log != [] {
      NoReminders(log[..|log| - 1], t);
    }
  }

  lemma {:induction false} TickReminds(w: World, now: Instant, n: nat, t: TripId)
    requires n <= |w.trips|
    ensures RemindersTo(RemindersBelow(w, now, n), t) == if t < n && InReminderWindow(w.trips[t], now) then 1 else 0
  {
    if n > 0 {
      TickReminds(w, now, n - 1, t);
      RemindersConcat(RemindersBelow(w, now, n - 1), [TripReminder(n - 1)], t);
    }
  }

  lemma {:induction false} SweepSendsNoReminder(w: World, now: Instant, n: nat)
    requires n <= |w.trips|
    ensures forall x :: x in CancelledBelow(w, now, n) + CompletedBelow(w, now, n) ==> !x.TripReminder?
  {
    if n > 0 {
      SweepSendsNoReminder(w, now, n - 1);
      forall x | x in CancelledBelow(w, now, n) + CompletedBelow(w, now, n) ensures !x.TripReminder? {
        assert x in CancelledBelow(w, now, n) || x in CompletedBelow(w, now, n);
        assert x in CancelledBelow(w, now, n - 1) + CompletedBelow(w, now, n - 1)
          || x.TripCancelled? || x.TripCompleted?;
      }
    }
  }

  /** Only the reminder job reminds, and it reminds a trip at most once per tick. */
  lemma CallReminds(w: World, call: Call, t: TripId)
    ensures RemindersTo(Apply(w, call).sent, t)
         == if call.SendReminders? && t < |w.trips| && InReminderWindow(w.trips[t], call.now) then 1 else 0
  {
    match call
    case SendReminders(now) => TickReminds(w, now, |w.trips|, t);
    case SweepExpired(now) =>
      SweepSendsNoReminder(w, now, |w.trips|);
      NoReminders(Apply(w, call).sent, t);
    case _ => NoReminders(Apply(w, call).sent, t);
  }

  function LastTick(calls: seq<Call>): Option<Instant> {
    if calls == [] then None
    else
      var call := calls[|calls| - 1];
      if call.SendReminders? then Some(call.now) else LastTick(calls[..|calls| - 1])
  }

  /** The reminder job runs at instants at least one hour apart. */
  predicate TicksApart(calls: seq<Call>) {
    calls != [] ==>
      var before, call := calls[..|calls| - 1], calls[|calls| - 1];
      TicksApart(before)
      && (call.SendReminders? && LastTick(before).Some? ==> LastTick(before).value + HOUR <= call.now)
  }

  /** The reminder job runs again within the hour. */
  predicate TicksClose(calls: seq<Call>) {
    calls != [] ==>
      var before, call := calls[..|calls| - 1], calls[|calls| - 1];
      TicksClose(before)
      && (call.SendReminders? && LastTick(before).Some? ==> call.now <= LastTick(before).value + HOUR)
  }

  /** No departure falls in the windows of two ticks if and only if they are at least an hour apart. */
  lemma WindowsDisjointIff(t1: Instant, t2: Instant)
    requires t1 <= t2
    ensures (forall at: Instant :: !(InWindow(at, t1) && InWindow(at, t2))) <==> t1 + HOUR <= t2
  {
    if t2 < t1 + HOUR {
      assert InWindow(t2 + 24 * HOUR, t1) && InWindow(t2 + 24 * HOUR, t2);
    }
  }

  /** No departure falls between the windows of two ticks if and only if they are at most an hour apart. */
  lemma WindowsTouchIff(t1: Instant, t2: Instant)
    requires t1 <= t2
    ensures (forall at: Instant :: t1 + 24 * HOUR <= at < t2 + 25 * HOUR ==> InWindow(at, t1) || InWindow(at, t2))
       <==> t2 <= t1 + HOUR
  {
    if t2 > t1 + HOUR {
      assert !InWindow(t1 + 25 * HOUR, t1) && !InWindow(t1 + 25 * HOUR, t2);
    }
  }

  /** The reminders of a trip along a run, counted tick by tick. */
  function Reminded(w: World, calls: seq<Call>, t: TripId): nat {
    if calls == [] then 0
    else
      var before, call := calls[..|calls| - 1], calls[|calls| - 1];
      Reminded(w, before, t)
      + if call.SendReminders? && t < |After(w, before).trips| && InReminderWindow(After(w, before).trips[t], call.now)
        then 1 else 0
  }

  lemma {:induction false} RemindersCounted(w: World, calls: seq<Call>, t: TripId)
    ensures RemindersTo(Log(w, calls), t) == Reminded(w, calls, t)
  {
    if calls != [] {
      var before, call := calls[..|calls| - 1], calls[|calls| - 1];
      RemindersCounted(w, before, t);
      RemindersConcat(Log(w, before), Apply(After(w, before), call).sent, t);
      CallReminds(After(w, before), call, t);
    }
  }

  /** One more call: its reminders are added, and a tick becomes the last one. */
  lemma RemindersAfterOne(w: World, before: seq<Call>, call: Call, t: TripId)
    ensures Reminded(w, before + [call], t)
         == Reminded(w, before, t)
          + if call.SendReminders? && t < |After(w, before).trips|
               && InReminderWindow(After(w, before).trips[t], call.now) then 1 else 0
    ensures LastTick(before + [call]) == if call.SendReminders? then Some(call.now) else LastTick(before)
    ensures TicksApart(before + [call]) ==>
      TicksApart(before)
      && (call.SendReminders? && LastTick(before).Some? ==> LastTick(before).value + HOUR <= call.now)
    ensures TicksClose(before + [call]) ==>
      TicksClose(before)
      && (call.SendReminders? && LastTick(before).Some? ==> call.now <= LastTick(before).value + HOUR)
  {
    assert (before + [call])[..|before|] == before;
  }

  /** From CONFIRMED on, nothing but the status changes; in particular the departure is frozen. */
  lemma {:induction false} ConfirmedIsFrozen(w: World, calls: seq<Call>, t: TripId)
    requires Linked(w) && t < |w.trips|
    requires w.trips[t].status == TripStatus.Confirmed || IsFinished(w.trips[t].status)
    ensures Linked(After(w, calls)) && t < |After(w, calls).trips|
    ensures var now := After(w, calls).trips[t];
            && now == w.trips[t].(status := now.status)
            && (now.status == TripStatus.Confirmed || IsFinished(now.status))
            && (IsFinished(w.trips[t].status) ==> now.status == w.trips[t].status)
  {
    if calls != [] {
      var before, call := calls[..|calls| - 1], calls[|calls| - 1];
      ConfirmedIsFrozen(w, before, t);
      CallKeepsRows(After(w, before), call);
      var m := CallIsAMove(After(w, before), call, t);
    }
  }

  /** After a reminder, the window has moved past the frozen departure for good. */
  ghost predicate RemindedOnce(w: World, calls: seq<Call>, t: TripId) {
    var sent := Reminded(w, calls, t);
    sent == 0
    || (sent == 1 && t < |After(w, calls).trips| && LastTick(calls).Some?
        && var trip := After(w, calls).trips[t];
           (trip.status == TripStatus.Confirmed || IsFinished(trip.status))
           && trip.departureAt < LastTick(calls).value + 25 * HOUR)
  }

  lemma {:induction false} EveryRunRemindedOnce(vehicles: seq<Vehicle>, concerts: seq<Concert>, calls: seq<Call>,
                                                t: TripId)
    requires TicksApart(calls)
    ensures RemindedOnce(Fresh(vehicles, concerts), calls, t)
  {
    if calls != [] {
      var before := calls[..|calls| - 1];
      EveryRunRemindedOnce(vehicles, concerts, before, t);
      EveryRunLinked(vehicles, concerts, before);
      CallKeepsRemindedOnce(Fresh(vehicles, concerts), before, calls[|calls| - 1], t);
      assert calls == before + [calls[|calls| - 1]];
    }
  }

  /** With ticks at least an hour apart no trip is reminded twice. */
  lemma NeverRemindedTwice(vehicles: seq<Vehicle>, concerts: seq<Concert>, calls: seq<Call>, t: TripId)
    requires TicksApart(calls)
    ensures RemindersTo(Log(Fresh(vehicles, concerts), calls), t) <= 1
  {
    EveryRunRemindedOnce(vehicles, concerts, calls, t);
    RemindersCounted(Fresh(vehicles, concerts), calls, t);
  }

  lemma CallKeepsRemindedOnce(w0: World, before: seq<Call>, call: Call, t: TripId)
    requires Linked(After(w0, before)) && TicksApart(before + [call]) && RemindedOnce(w0, before, t)
    ensures RemindedOnce(w0, before + [call], t)
  {
    var w := After(w0, before);
    RemindersAfterOne(w0, before, call, t);
    if t < |w.trips| && (w.trips[t].status == TripStatus.Confirmed || IsFinished(w.trips[t].status)) {
      ConfirmedIsFrozen(w, [call], t);
      OneCall(w, call);
    }
    assert (before + [call])[..|before|] == before;
  }

  lemma {:induction false} AfterConcat(w: World, a: seq<Call>, b: seq<Call>)
    ensures After(w, a + b) == After(After(w, a), b)
  {
    if b == [] {
      assert a + b == a;
    } else {
      AfterConcat(w, a, b[..|b| - 1]);
      assert (a + b)[..|a + b| - 1] == a + b[..|b| - 1];
    }
  }

  lemma OneCall(w: World, call: Call)
    ensures After(w, [call]) == Apply(w, call).world
  {
    assert [call][..0] == [];
    assert After(w, [call][..0]) == w;
  }

  ghost predicate ConfirmedAt(w: World, t: TripId) {
    t < |w.trips| && w.trips[t].status == TripStatus.Confirmed
  }

  /** A trip that was CONFIRMED and is CONFIRMED was so in between, with the same departure. */
  lemma ConfirmedInBetween(w: World, first: seq<Call>, call: Call, t: TripId)
    requires Linked(w) && ConfirmedAt(w, t) && ConfirmedAt(Apply(After(w, first), call).world, t)
    ensures ConfirmedAt(After(w, first), t)
    ensures After(w, first).trips[t] == w.trips[t] == Apply(After(w, first), call).world.trips[t]
  {
    ConfirmedIsFrozen(w, first, t);
    ConfirmedIsFrozen(After(w, first), [call], t);
    OneCall(After(w, first), call);
  }

  /** The trip has been reminded, or departs beyond the last window. */
  ghost predicate RemindedOrAhead(w: World, calls: seq<Call>, t: TripId, departureAt: Instant) {
    LastTick(calls).Some?
    && (Reminded(w, calls, t) >= 1 || departureAt >= LastTick(calls).value + 25 * HOUR)
  }

  lemma CallKeepsReminded(w: World, before: seq<Call>, call: Call, t: TripId)
    requires ConfirmedAt(After(w, before), t) && TicksClose(before + [call])
    requires var departureAt := After(w, before).trips[t].departureAt;
             RemindedOrAhead(w, before, t, departureAt)
             || (call.SendReminders? && call.now + 24 * HOUR <= departureAt)
    ensures RemindedOrAhead(w, before + [call], t, After(w, before).trips[t].departureAt)
  {
    RemindersAfterOne(w, before, call, t);
  }

  /** A tick at this instant finds the trip CONFIRMED with at least a day to go. */
  ghost predicate AheadAt(w: World, tick: Instant, t: TripId) {
    ConfirmedAt(w, t) && tick + 24 * HOUR <= w.trips[t].departureAt
  }

  lemma AfterTick(w: World, before: seq<Call>, tick: Instant, t: TripId)
    requires AheadAt(After(w, before), tick, t) && TicksClose(before + [SendReminders(tick)])
    ensures var first := before + [SendReminders(tick)];
            After(w, first) == After(w, before)
            && RemindedOrAhead(w, first, t, After(w, before).trips[t].departureAt)
  {
    assert (before + [SendReminders(tick)])[..|before|] == before;
    CallKeepsReminded(w, before, SendReminders(tick), t);
  }

  lemma {:induction false} RemindedOrStillAhead(w: World, first: seq<Call>, post: seq<Call>, t: TripId)
    requires Linked(After(w, first)) && ConfirmedAt(After(w, first), t)
    requires RemindedOrAhead(w, first, t, After(w, first).trips[t].departureAt)
    requires TicksClose(first + post) && ConfirmedAt(After(w, first + post), t)
    ensures RemindedOrAhead(w, first + post, t, After(w, first + post).trips[t].departureAt)
    decreases |post|
  {
    if post == [] {
      assert first + post == first;
    } else {
      var rest, call := post[..|post| - 1], post[|post| - 1];
      var before := first + rest;
      assert first + post == before + [call] && (before + [call])[..|before|] == before;
      AfterConcat(w, first, rest);
      ConfirmedInBetween(After(w, first), rest, call, t);
      RemindedOrStillAhead(w, first, rest, t);
      CallKeepsReminded(w, before, call, t);
    }
  }

  lemma {:induction false} TicksCloseBefore(first: seq<Call>, post: seq<Call>)
    requires TicksClose(first + post)
    ensures TicksClose(first)
    decreases |post|
  {
    if post == [] {
      assert first + post == first;
    } else {
      assert (first + post)[..|first + post| - 1] == first + post[..|post| - 1];
      TicksCloseBefore(first, post[..|post| - 1]);
    }
  }

  /** The run up to `before`, a tick that finds the trip CONFIRMED a day ahead, and a rest after which it is still
      CONFIRMED and the windows have passed its departure. */
  ghost predicate StaysConfirmed(w: World, before: seq<Call>, tick: Instant, post: seq<Call>, t: TripId) {
    var calls := before + [SendReminders(tick)] + post;
    AheadAt(After(w, before), tick, t) && ConfirmedAt(After(w, calls), t) && LastTick(calls).Some?
    && After(w, calls).trips[t].departureAt < LastTick(calls).value + 25 * HOUR
  }

  /** With ticks at most an hour apart, a trip that is CONFIRMED at some tick at least a day before its
      departure, and still CONFIRMED when the ticks have come within 25 hours of it, has been reminded. */
  lemma RemindedAtLeastOnce(vehicles: seq<Vehicle>, concerts: seq<Concert>, before: seq<Call>, tick: Instant,
                            post: seq<Call>, t: TripId)
    requires TicksClose(before + [SendReminders(tick)] + post)
    requires StaysConfirmed(Fresh(vehicles, concerts), before, tick, post, t)
    ensures RemindersTo(Log(Fresh(vehicles, concerts), before + [SendReminders(tick)] + post), t) >= 1
  {
    var w, first := Fresh(vehicles, concerts), before + [SendReminders(tick)];
    EveryRunLinked(vehicles, concerts, first);
    TicksCloseBefore(first, post);
    AfterTick(w, before, tick, t);
    RemindedOrStillAhead(w, first, post, t);
    RemindersCounted(w, first + post, t);
  }

  /** And with ticks exactly an hour apart exactly once. */
  lemma RemindedExactlyOnce(vehicles: seq<Vehicle>, concerts: seq<Concert>, before: seq<Call>, tick: Instant,
                            post: seq<Call>, t: TripId)
    requires TicksApart(before + [SendReminders(tick)] + post) && TicksClose(before + [SendReminders(tick)] + post)
    requires StaysConfirmed(Fresh(vehicles, concerts), before, tick, post, t)
    ensures RemindersTo(Log(Fresh(vehicles, concerts), before + [SendReminders(tick)] + post), t) == 1
  {
    RemindedAtLeastOnce(vehicles, concerts, before, tick, post, t);
    NeverRemindedTwice(vehicles, concerts, before + [SendReminders(tick)] + post, t);
  }
}

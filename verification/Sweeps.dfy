/** The hourly lifecycle sweep. */
module Sweeps {
  import opened Domain
  import opened Lifecycle
  import opened Moves
  import opened TripEffects

  predicate Due(w: World, t: TripId, now: Instant)
    requires t < |w.trips|
  {
    Expires(w, t, now) || Departs(w, t, now)
  }

  function DueBelow(w: World, now: Instant, n: nat): set<TripId>
    requires n <= |w.trips|
  {
    set t: TripId | t < n && Due(w, t, now)
  }

  lemma {:induction false} CountIsDue(w: World, now: Instant, n: nat)
    requires n <= |w.trips|
    ensures |CancelledBelow(w, now, n)| + |CompletedBelow(w, now, n)| == |DueBelow(w, now, n)|
  {
    if n == 0 {
      assert DueBelow(w, now, n) == {};
    } else {
      CountIsDue(w, now, n - 1);
      var before := DueBelow(w, now, n - 1);
      if Due(w, n - 1, now) {
        assert DueBelow(w, now, n) == before + {n - 1};
      } else {
        assert DueBelow(w, now, n) == before;
      }
    }
  }

  /** A sweep changes exactly the due trips, leaves none due, touches no other table, and answers with
      the number of trips it changed. */
  lemma SweepClearsTheDue(w: World, now: Instant)
    ensures var o := Sweep(w, now);
            && o.world == w.(trips := o.world.trips) && |o.world.trips| == |w.trips|
            && o.response == Ok(|set t: TripId | t < |w.trips| && o.world.trips[t] != w.trips[t]|)
            && (forall t: TripId :: t < |w.trips| ==>
                  && (o.world.trips[t] != w.trips[t] <==> MissedMinimum(w, t, now) || HasDeparted(w, t, now))
                  && !MissedMinimum(o.world, t, now) && !HasDeparted(o.world, t, now))
  {
    CountIsDue(w, now, |w.trips|);
    assert DueBelow(w, now, |w.trips|)
        == set t: TripId | t < |w.trips| && Sweep(w, now).world.trips[t] != w.trips[t];
  }

  lemma {:induction false} NothingDueNothingSent(w: World, now: Instant, n: nat)
    requires n <= |w.trips| && forall t: TripId :: t < |w.trips| ==> !Due(w, t, now)
    ensures CancelledBelow(w, now, n) == [] && CompletedBelow(w, now, n) == []
  {
    if n > 0 {
      NothingDueNothingSent(w, now, n - 1);
      assert !Due(w, n - 1, now);
    }
  }

  /** A second sweep at the same instant does nothing. */
  lemma SweepIsIdempotent(w: World, now: Instant)
    ensures Sweep(Sweep(w, now).world, now) == Outcome(Sweep(w, now).world, [], Ok(0))
  {
    var once := Sweep(w, now).world;
    SweepClearsTheDue(w, now);
    NothingDueNothingSent(once, now, |once.trips|);
    assert Swept(once, now).trips == once.trips;
  }

  /** What is due later is what is due now and what a sweep now leaves due later. */
  lemma DueLater(w: World, t1: Instant, t2: Instant, t: TripId)
    requires t1 <= t2 && t < |w.trips|
    ensures Expires(w, t, t2) <==> Expires(w, t, t1) || Expires(Swept(w, t1), t, t2)
    ensures !(Expires(w, t, t1) && Expires(Swept(w, t1), t, t2))
    ensures Departs(w, t, t2) <==> Departs(w, t, t1) || Departs(Swept(w, t1), t, t2)
    ensures !(Departs(w, t, t1) && Departs(Swept(w, t1), t, t2))
  {
  }

  lemma {:induction false} CountsAdd(w: World, t1: Instant, t2: Instant, n: nat)
    requires t1 <= t2 && n <= |w.trips|
    ensures |CancelledBelow(w, t2, n)| == |CancelledBelow(w, t1, n)| + |CancelledBelow(Swept(w, t1), t2, n)|
    ensures |CompletedBelow(w, t2, n)| == |CompletedBelow(w, t1, n)| + |CompletedBelow(Swept(w, t1), t2, n)|
  {
    if n > 0 {
      CountsAdd(w, t1, t2, n - 1);
      DueLater(w, t1, t2, n - 1);
    }
  }

  lemma LifeOfTwoSweeps(w: World, t1: Instant, t2: Instant, t: TripId)
    requires t1 <= t2
    ensures var first := Sweep(w, t1);
            Life(first.sent + Sweep(first.world, t2).sent, t) == Life(Sweep(w, t2).sent, t)
  {
    var first := Sweep(w, t1);
    LifeConcat(first.sent, Sweep(first.world, t2).sent, t);
    LifeOfSweep(w, t1, t);
    LifeOfSweep(first.world, t2, t);
    LifeOfSweep(w, t2, t);
    if t < |w.trips| {
      DueLater(w, t1, t2, t);
    }
  }

  lemma TwoSweptTrips(w: World, t1: Instant, t2: Instant)
    requires t1 <= t2
    ensures Swept(Swept(w, t1), t2) == Swept(w, t2)
  {
    forall i: TripId | i < |w.trips| ensures SweptTrip(Swept(w, t1), i, t2) == SweptTrip(w, i, t2) {
      DueLater(w, t1, t2, i);
    }
    assert Swept(Swept(w, t1), t2).trips == Swept(w, t2).trips;
  }

  /** Sweeping twice is sweeping once at the later instant: same database, same total, and the same
      notifications to each trip. */
  lemma SweepsCompose(w: World, t1: Instant, t2: Instant, t: TripId)
    requires t1 <= t2
    ensures var first := Sweep(w, t1);
            var second := Sweep(first.world, t2);
            var direct := Sweep(w, t2);
            && second.world == direct.world
            && direct.response == Ok(first.response.value + second.response.value)
            && Life(first.sent + second.sent, t) == Life(direct.sent, t)
  {
    CountsAdd(w, t1, t2, |w.trips|);
    TwoSweptTrips(w, t1, t2);
    LifeOfTwoSweeps(w, t1, t2, t);
  }
}

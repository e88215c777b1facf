/** Trip lists: batched seat counts, filters, and the orders a list can be shown in. */
module Listing {
  import opened Domain
  import opened Seats
  import opened Pricing
  import opened StateMachine
  import Text

  datatype ListedTrip = ListedTrip(id: TripId, trip: Trip)

  datatype SortOrder = Soonest | Cheapest | Likely | ActiveFirst

  /** Ratings are in tenths of a star. */
  datatype Filter = Filter(maxPrice: Option<int>, seatsMin: Option<int>, from: string, minRating: Option<int>)

  const EVERYTHING := Filter(None, None, "", None)

  datatype TripDto = TripDto(id: TripId, trip: Trip, confirmedSeats: nat, livePrice: LivePrice, rating: Option<int>)

  type Ratings = map<UserId, Option<int>>

  // ---- seat counts ----

  /** One pass over the bookings of many trips agrees with counting each trip alone. */
  method CountConfirmedSeatsFor(bookings: seq<Booking>, tripIds: seq<TripId>) returns (counts: map<TripId, nat>)
    ensures forall id :: id in tripIds ==> CountOr0(counts, id) == ConfirmedSeats(bookings, id)
    ensures forall id :: id in counts ==> id in tripIds
  {
    counts := map[];
    if tripIds == [] { return; }
    for i := 0 to |bookings|
      invariant forall id :: id in tripIds ==> CountOr0(counts, id) == ConfirmedSeats(bookings[..i], id)
      invariant forall id :: id in counts ==> id in tripIds
    {
      var row := bookings[i];
      assert bookings[..i + 1][..i] == bookings[..i];
      if row.tripId in tripIds && row.status == BookingStatus.Confirmed {
        counts := counts[row.tripId := CountOr0(counts, row.tripId) + row.seats];
      }
    }
    assert bookings[..|bookings|] == bookings;
  }

  // ---- filters ----

  /** The first stop of the route: the earliest one with the smallest order. */
  function FirstStop(stops: seq<Stop>): Stop
    requires stops != []
  {
    if |stops| == 1 then stops[0]
    else
      var rest := FirstStop(stops[1..]);
      if stops[0].order <= rest.order then stops[0] else rest
  }

  predicate Contains(s: string, part: string) {
    part <= s || (s != "" && Contains(s[1..], part))
  }

  predicate MatchesDeparture(t: ListedTrip, query: string) {
    t.trip.stops != []
    && Contains(Text.ToLower(FirstStop(t.trip.stops).place), Text.ToLower(query))
  }

  function SeatsLeft(trip: Trip, confirmed: nat): int {
    Max(trip.maxPassengers - confirmed, 0)
  }

  predicate Priceable(t: ListedTrip) {
    1 <= t.trip.minPassengers && 1 <= t.trip.maxPassengers
  }

  function RatingOf(t: ListedTrip, ratings: Ratings): Option<int> {
    if t.trip.driverId in ratings then ratings[t.trip.driverId] else None
  }

  /** The entry a trip is shown as, from its own seats alone. */
  function Entry(t: ListedTrip, bookings: seq<Booking>, ratings: Ratings): TripDto
    requires Priceable(t)
  {
    var confirmed := ConfirmedSeats(bookings, t.id);
    var price := Calculate(t.trip.pricingMode, t.trip.totalCost, t.trip.minPassengers, t.trip.maxPassengers, confirmed);
    TripDto(t.id, t.trip, confirmed, price, RatingOf(t, ratings))
  }

  predicate Passes(t: ListedTrip, e: TripDto, f: Filter) {
    && (f.maxPrice.Some? ==> e.livePrice.perPerson <= f.maxPrice.value)
    && (f.seatsMin.Some? ==> SeatsLeft(t.trip, e.confirmedSeats) >= f.seatsMin.value)
    && (f.from != "" ==> MatchesDeparture(t, f.from))
    && (f.minRating.Some? ==> e.rating.Some? && e.rating.value >= f.minRating.value)
  }

  /** The entries of exactly the trips that pass every filter, in table order. */
  function Selected(trips: seq<ListedTrip>, bookings: seq<Booking>, ratings: Ratings, f: Filter): seq<TripDto>
    requires forall i :: 0 <= i < |trips| ==> Priceable(trips[i])
  {
    if trips == [] then []
    else
      var last := trips[|trips| - 1];
      var e := Entry(last, bookings, ratings);
      var rest := Selected(trips[..|trips| - 1], bookings, ratings, f);
      if Passes(last, e, f) then rest + [e] else rest
  }

  // ---- the list, by the columns alone ----

  /** The first stop comes no later in the route than any other. */
  lemma {:induction false} FirstStopIsFirst(stops: seq<Stop>)
    requires stops != []
    ensures FirstStop(stops) in stops && forall s :: s in stops ==> FirstStop(stops).order <= s.order
  {
    if |stops| > 1 {
      FirstStopIsFirst(stops[1..]);
      assert stops == [stops[0]] + stops[1..];
    }
  }

  ghost predicate OccursAt(s: string, part: string, i: nat) {
    i + |part| <= |s| && s[i..i + |part|] == part
  }

  ghost predicate OccursIn(s: string, part: string) {
    exists i: nat :: OccursAt(s, part, i)
  }

  lemma {:induction false} ContainsIsOccurrence(s: string, part: string)
    ensures Contains(s, part) <==> OccursIn(s, part)
  {
    assert part <= s <==> OccursAt(s, part, 0);
    if s != "" {
      ContainsIsOccurrence(s[1..], part);
      if OccursIn(s[1..], part) {
        var i: nat :| OccursAt(s[1..], part, i);
        assert s[1..][i..i + |part|] == s[i + 1..i + 1 + |part|];
        assert OccursAt(s, part, i + 1);
      }
      if i: nat :| OccursAt(s, part, i) {
        if i > 0 {
          assert s[1..][i - 1..i - 1 + |part|] == s[i..i + |part|];
          assert OccursAt(s[1..], part, i - 1);
        }
      }
    }
  }

  /** A stop no other comes before in the route has the text asked for in its name, in capitals or not. */
  ghost predicate LeavesFrom(stops: seq<Stop>, query: string) {
    exists s :: s in stops && (forall other :: other in stops ==> s.order <= other.order)
                && OccursIn(Text.ToLower(s.place), Text.ToLower(query))
  }

  /** The entry shows the trip with its own confirmed seats, their price, and its driver's rating. */
  ghost predicate Shows(e: TripDto, t: ListedTrip, bookings: seq<Booking>, ratings: Ratings)
    requires Priceable(t)
  {
    && e.id == t.id && e.trip == t.trip
    && e.confirmedSeats == ConfirmedSeats(bookings, t.id)
    && e.livePrice == Calculate(t.trip.pricingMode, t.trip.totalCost, t.trip.minPassengers, t.trip.maxPassengers,
                                e.confirmedSeats)
    && e.rating == if t.trip.driverId in ratings then ratings[t.trip.driverId] else None
  }

  /** Cheap enough, roomy enough, from the right place, with a driver rated well enough. */
  ghost predicate Wanted(e: TripDto, f: Filter) {
    && (f.maxPrice.Some? ==> e.livePrice.perPerson <= f.maxPrice.value)
    && (f.seatsMin.Some? ==> e.trip.maxPassengers - e.confirmedSeats >= f.seatsMin.value || 0 >= f.seatsMin.value)
    && (f.from != "" ==> LeavesFrom(e.trip.stops, f.from))
    && (f.minRating.Some? ==> e.rating.Some? && f.minRating.value <= e.rating.value)
  }

  ghost predicate StopsApart(stops: seq<Stop>) {
    forall i, j :: 0 <= i < j < |stops| ==> stops[i].order != stops[j].order
  }

  lemma DepartureInWords(t: ListedTrip, query: string)
    requires StopsApart(t.trip.stops)
    ensures MatchesDeparture(t, query) <==> LeavesFrom(t.trip.stops, query)
  {
    var stops := t.trip.stops;
    if stops != [] {
      FirstStopIsFirst(stops);
      var first := FirstStop(stops);
      ContainsIsOccurrence(Text.ToLower(first.place), Text.ToLower(query));
      forall s | s in stops && forall other :: other in stops ==> s.order <= other.order ensures s == first {
        var i :| 0 <= i < |stops| && stops[i] == s;
        var j :| 0 <= j < |stops| && stops[j] == first;
        assert stops[i].order == stops[j].order;
        assert i == j;
      }
    }
  }

  lemma EntryInWords(t: ListedTrip, e: TripDto, bookings: seq<Booking>, ratings: Ratings, f: Filter)
    requires Priceable(t) && StopsApart(t.trip.stops)
    ensures Shows(e, t, bookings, ratings) <==> e == Entry(t, bookings, ratings)
    ensures Shows(e, t, bookings, ratings) ==> (Passes(t, e, f) <==> Wanted(e, f))
  {
    DepartureInWords(t, f.from);
  }

  /** The list shows exactly the trips that are wanted, each as often as it occurs. */
  ghost predicate ListsExactly(s: seq<TripDto>, trips: seq<ListedTrip>, bookings: seq<Booking>, ratings: Ratings,
                               f: Filter)
    requires forall i :: 0 <= i < |trips| ==> Priceable(trips[i])
  {
    forall e :: e in s <==> Wanted(e, f) && exists i :: 0 <= i < |trips| && Shows(e, trips[i], bookings, ratings)
  }

  lemma {:induction false} SelectedInWords(trips: seq<ListedTrip>, bookings: seq<Booking>, ratings: Ratings, f: Filter)
    requires forall i :: 0 <= i < |trips| ==> Priceable(trips[i]) && StopsApart(trips[i].trip.stops)
    ensures ListsExactly(Selected(trips, bookings, ratings, f), trips, bookings, ratings, f)
  {
    if trips != [] {
      var front, last := trips[..|trips| - 1], trips[|trips| - 1];
      SelectedInWords(front, bookings, ratings, f);
      forall e ensures e in Selected(trips, bookings, ratings, f)
          <==> Wanted(e, f) && exists i :: 0 <= i < |trips| && Shows(e, trips[i], bookings, ratings)
      {
        EntryInWords(last, e, bookings, ratings, f);
        EntryInWords(last, Entry(last, bookings, ratings), bookings, ratings, f);
        if i :| 0 <= i < |front| && Shows(e, front[i], bookings, ratings) {
          assert Shows(e, trips[i], bookings, ratings);
        }
        if i :| 0 <= i < |trips| && Shows(e, trips[i], bookings, ratings) {
          assert i < |front| ==> Shows(e, front[i], bookings, ratings);
        }
      }
    }
  }

  // ---- orders ----

  function Terminal(status: TripStatus): int {
    if IsFinished(status) then 1 else 0
  }

  /** The comparators.  "Most likely" compares the ratios of confirmed to offered seats, cross-multiplied. */
  function Compare(order: SortOrder, a: TripDto, b: TripDto): int {
    match order
    case Cheapest => a.livePrice.perPerson - b.livePrice.perPerson
    case Likely => b.confirmedSeats * Max(a.trip.maxPassengers, 1) - a.confirmedSeats * Max(b.trip.maxPassengers, 1)
    case Soonest => a.trip.departureAt - b.trip.departureAt
    case ActiveFirst =>
      if Terminal(a.trip.status) != Terminal(b.trip.status) then Terminal(a.trip.status) - Terminal(b.trip.status)
      else a.trip.departureAt - b.trip.departureAt
  }

  lemma CompareTotal(order: SortOrder, a: TripDto, b: TripDto)
    ensures Compare(order, a, b) <= 0 || Compare(order, b, a) <= 0
  {
  }

  /** Comparing ratios is transitive although no ratio is ever computed. */
  lemma RatiosTransitive(p: nat, m: nat, q: nat, n: nat, r: nat, o: nat)
    requires m > 0 && n > 0 && o > 0
    requires q * m <= p * n && r * n <= q * o
    ensures r * m <= p * o
  {
    assert (q * m) * o <= (p * n) * o;
    assert (r * n) * m <= (q * o) * m;
    assert (r * m) * n == (r * n) * m && (q * o) * m == (q * m) * o && (p * n) * o == (p * o) * n;
    LessByFactor(r * m, p * o + 1, n);
  }

  lemma CompareTransitive(order: SortOrder, a: TripDto, b: TripDto, c: TripDto)
    requires Compare(order, a, b) <= 0 && Compare(order, b, c) <= 0
    ensures Compare(order, a, c) <= 0
  {
    if order == Likely {
      RatiosTransitive(a.confirmedSeats, Max(a.trip.maxPassengers, 1), b.confirmedSeats, Max(b.trip.maxPassengers, 1),
                       c.confirmedSeats, Max(c.trip.maxPassengers, 1));
    }
  }

  /** How the list runs: prices, or departures, never fall; the share of seats taken never rises; or the active
      trips come first, and departures never fall among the active nor among the finished. */
  ghost predicate RunsBy(order: SortOrder, s: seq<TripDto>) {
    forall i, j :: 0 <= i < j < |s| ==>
      && (order == Cheapest ==> s[i].livePrice.perPerson <= s[j].livePrice.perPerson)
      && (order == Soonest ==> s[i].trip.departureAt <= s[j].trip.departureAt)
      && (order == Likely ==>
            s[j].confirmedSeats * AtLeastOne(s[i].trip.maxPassengers)
              <= s[i].confirmedSeats * AtLeastOne(s[j].trip.maxPassengers))
      && (order == ActiveFirst ==>
            && (Over(s[i]) ==> Over(s[j]))
            && (Over(s[i]) == Over(s[j]) ==> s[i].trip.departureAt <= s[j].trip.departureAt))
  }

  ghost function AtLeastOne(seats: int): int {
    if seats < 1 then 1 else seats
  }

  ghost predicate Over(e: TripDto) {
    e.trip.status == TripStatus.Cancelled || e.trip.status == TripStatus.Completed
  }

  lemma SortedInWords(order: SortOrder, s: seq<TripDto>)
    requires SortedBy(order, s)
    ensures RunsBy(order, s)
  {
    forall i, j | 0 <= i < j < |s| ensures Compare(order, s[i], s[j]) <= 0 {
    }
  }

  ghost predicate SortedBy(order: SortOrder, s: seq<TripDto>) {
    forall i, j :: 0 <= i < j < |s| ==> Compare(order, s[i], s[j]) <= 0
  }

  /** Insert behind everything that is not greater. */
  function InsertBy(order: SortOrder, s: seq<TripDto>, e: TripDto): seq<TripDto> {
    if s != [] && Compare(order, s[|s| - 1], e) > 0 then InsertBy(order, s[..|s| - 1], e) + [s[|s| - 1]]
    else s + [e]
  }

  lemma {:induction false} InsertMembers(order: SortOrder, s: seq<TripDto>, e: TripDto)
    ensures multiset(InsertBy(order, s, e)) == multiset(s) + multiset{e}
  {
    if s != [] && Compare(order, s[|s| - 1], e) > 0 {
      InsertMembers(order, s[..|s| - 1], e);
      assert s == s[..|s| - 1] + [s[|s| - 1]];
    }
  }

  ghost predicate AllBefore(order: SortOrder, s: seq<TripDto>, e: TripDto) {
    forall i :: 0 <= i < |s| ==> Compare(order, s[i], e) <= 0
  }

  lemma AppendSorted(order: SortOrder, s: seq<TripDto>, e: TripDto)
    requires SortedBy(order, s) && AllBefore(order, s, e)
    ensures SortedBy(order, s + [e])
  {
  }

  lemma PlacedBefore(order: SortOrder, front: seq<TripDto>, e: TripDto, last: TripDto)
    requires AllBefore(order, front, last) && Compare(order, last, e) > 0
    ensures AllBefore(order, InsertBy(order, front, e), last)
  {
    var placed := InsertBy(order, front, e);
    InsertMembers(order, front, e);
    CompareTotal(order, last, e);
    forall i | 0 <= i < |placed| ensures Compare(order, placed[i], last) <= 0 {
      assert placed[i] in multiset(placed);
      assert placed[i] == e || placed[i] in front;
    }
  }

  lemma {:induction false} InsertSorted(order: SortOrder, s: seq<TripDto>, e: TripDto)
    requires SortedBy(order, s)
    ensures SortedBy(order, InsertBy(order, s, e))
  {
    if s != [] {
      var front, last := s[..|s| - 1], s[|s| - 1];
      if Compare(order, last, e) > 0 {
        InsertSorted(order, front, e);
        PlacedBefore(order, front, e, last);
        AppendSorted(order, InsertBy(order, front, e), last);
      } else {
        forall i | 0 <= i < |s| ensures Compare(order, s[i], e) <= 0 {
          if i < |s| - 1 { CompareTransitive(order, s[i], last, e); }
        }
        AppendSorted(order, s, e);
      }
    }
  }

  function Only(e: TripDto, kept: bool): seq<TripDto> {
    if kept then [e] else []
  }

  /** The entries that compare equal to `x`, in the order they stand in. */
  ghost function Ties(order: SortOrder, s: seq<TripDto>, x: TripDto): seq<TripDto> {
    if s == [] then []
    else
      var last := s[|s| - 1];
      Ties(order, s[..|s| - 1], x) + Only(last, Compare(order, last, x) == 0)
  }

  lemma TiesAppend(order: SortOrder, s: seq<TripDto>, e: TripDto, x: TripDto)
    ensures Ties(order, s + [e], x) == Ties(order, s, x) + Only(e, Compare(order, e, x) == 0)
  {
    assert (s + [e])[..|s|] == s;
  }

  lemma NotBothTies(order: SortOrder, a: TripDto, b: TripDto, x: TripDto)
    requires Compare(order, a, b) > 0
    ensures !(Compare(order, a, x) == 0 && Compare(order, b, x) == 0)
  {
    if Compare(order, a, x) == 0 && Compare(order, x, b) <= 0 {
      CompareTransitive(order, a, x, b);
      assert false;
    }
  }

  lemma OnlyOneOfTwo(front: seq<TripDto>, a: TripDto, b: TripDto, keepA: bool, keepB: bool)
    requires !(keepA && keepB)
    ensures front + Only(a, keepA) + Only(b, keepB) == front + Only(b, keepB) + Only(a, keepA)
  {
  }

  lemma StableStep(order: SortOrder, front: seq<TripDto>, placed: seq<TripDto>, last: TripDto, e: TripDto, x: TripDto)
    requires Ties(order, placed, x) == Ties(order, front, x) + Only(e, Compare(order, e, x) == 0)
    requires Compare(order, last, e) > 0
    ensures Ties(order, placed + [last], x) == Ties(order, front + [last], x) + Only(e, Compare(order, e, x) == 0)
  {
    TiesAppend(order, placed, last, x);
    TiesAppend(order, front, last, x);
    NotBothTies(order, last, e, x);
    OnlyOneOfTwo(Ties(order, front, x), e, last, Compare(order, e, x) == 0, Compare(order, last, x) == 0);
  }

  lemma {:induction false} InsertIsStable(order: SortOrder, s: seq<TripDto>, e: TripDto, x: TripDto)
    ensures Ties(order, InsertBy(order, s, e), x) == Ties(order, s, x) + Only(e, Compare(order, e, x) == 0)
  {
    if s != [] && Compare(order, s[|s| - 1], e) > 0 {
      var front, last := s[..|s| - 1], s[|s| - 1];
      var placed := InsertBy(order, front, e);
      assert s == front + [last] && InsertBy(order, s, e) == placed + [last];
      InsertIsStable(order, front, e, x);
      StableStep(order, front, placed, last, e, x);
    } else {
      TiesAppend(order, s, e, x);
    }
  }

  /** Sorted, with entries that compare equal left in their order: this determines the result. */
  ghost predicate IsStableSort(order: SortOrder, sorted: seq<TripDto>, s: seq<TripDto>) {
    && SortedBy(order, sorted)
    && multiset(sorted) == multiset(s)
    && forall x :: Ties(order, sorted, x) == Ties(order, s, x)
  }

  lemma InsertKeepsStableSort(order: SortOrder, sorted: seq<TripDto>, s: seq<TripDto>, e: TripDto)
    requires IsStableSort(order, sorted, s)
    ensures IsStableSort(order, InsertBy(order, sorted, e), s + [e])
  {
    InsertSorted(order, sorted, e);
    InsertMembers(order, sorted, e);
    forall x ensures Ties(order, InsertBy(order, sorted, e), x) == Ties(order, s + [e], x) {
      InsertIsStable(order, sorted, e, x);
      TiesAppend(order, s, e, x);
    }
  }

  /** `sort` with one of the comparators. */
  method SortEntries(order: SortOrder, s: seq<TripDto>) returns (sorted: seq<TripDto>)
    ensures IsStableSort(order, sorted, s)
  {
    sorted := [];
    for i := 0 to |s|
      invariant IsStableSort(order, sorted, s[..i])
    {
      InsertKeepsStableSort(order, sorted, s[..i], s[i]);
      assert s[..i + 1] == s[..i] + [s[i]];
      sorted := InsertBy(order, sorted, s[i]);
    }
    assert s[..|s|] == s;
  }

  // ---- the list ----

  /** The answer is a stable sort of exactly the entries that pass every filter. */
  method HydrateTrips(trips: seq<ListedTrip>, bookings: seq<Booking>, ratings: Ratings, f: Filter, order: SortOrder)
    returns (result: seq<TripDto>)
    requires forall i :: 0 <= i < |trips| ==> Priceable(trips[i])
    ensures IsStableSort(order, result, Selected(trips, bookings, ratings, f))
    ensures RunsBy(order, result)
    ensures (forall i :: 0 <= i < |trips| ==> StopsApart(trips[i].trip.stops)) ==>
      ListsExactly(result, trips, bookings, ratings, f)
  {
    var tripIds := seq(|trips|, i requires 0 <= i < |trips| => trips[i].id);
    var seatCounts := CountConfirmedSeatsFor(bookings, tripIds);
    var entries: seq<TripDto> := [];
    for i := 0 to |trips|
      invariant entries == Selected(trips[..i], bookings, ratings, f)
    {
      var t := trips[i];
      assert tripIds[i] in tripIds;
      assert trips[..i + 1][..i] == trips[..i];
      var confirmed := CountOr0(seatCounts, t.id);
      var price := Calculate(t.trip.pricingMode, t.trip.totalCost, t.trip.minPassengers,
                             t.trip.maxPassengers, confirmed);
      if f.maxPrice.Some? && price.perPerson > f.maxPrice.value { continue; }
      if f.seatsMin.Some? && SeatsLeft(t.trip, confirmed) < f.seatsMin.value { continue; }
      if f.from != "" && !MatchesDeparture(t, f.from) { continue; }
      var rating := RatingOf(t, ratings);
      if f.minRating.Some? {
        if rating.None? || rating.value < f.minRating.value { continue; }
      }
      entries := entries + [TripDto(t.id, t.trip, confirmed, price, rating)];
    }
    assert trips[..|trips|] == trips;
    result := SortEntries(order, entries);
    SortedInWords(order, result);
    if forall i :: 0 <= i < |trips| ==> StopsApart(trips[i].trip.stops) {
      SelectedInWords(trips, bookings, ratings, f);
      assert forall e :: e in result <==> e in multiset(result);
      assert forall e :: e in entries <==> e in multiset(entries);
    }
  }

  /** The first `k` entries are active, the others finished, and both groups go by departure. */
  ghost predicate ActiveUpTo(s: seq<TripDto>, k: nat) {
    && k <= |s|
    && (forall i :: 0 <= i < |s| ==> (Over(s[i]) <==> k <= i))
    && (forall i, j :: 0 <= i < j < |s| && (j < k || k <= i) ==> s[i].trip.departureAt <= s[j].trip.departureAt)
  }

  /** A driver's own trips: none lost, active ones first, each group by departure. */
  method ListMine(trips: seq<ListedTrip>, bookings: seq<Booking>, ratings: Ratings) returns (result: seq<TripDto>)
    requires forall i :: 0 <= i < |trips| ==> Priceable(trips[i])
    ensures multiset(result)
         == multiset(seq(|trips|, i requires 0 <= i < |trips| => Entry(trips[i], bookings, ratings)))
    ensures exists k :: ActiveUpTo(result, k)
  {
    var all := HydrateTrips(trips, bookings, ratings, EVERYTHING, Soonest);
    NothingFilteredOut(trips, bookings, ratings);
    result := SortEntries(ActiveFirst, all);
    ghost var k := ActiveThenTerminal(result);
  }

  lemma {:induction false} NothingFilteredOut(trips: seq<ListedTrip>, bookings: seq<Booking>, ratings: Ratings)
    requires forall i :: 0 <= i < |trips| ==> Priceable(trips[i])
    ensures Selected(trips, bookings, ratings, EVERYTHING)
         == seq(|trips|, i requires 0 <= i < |trips| => Entry(trips[i], bookings, ratings))
  {
    if trips != [] {
      NothingFilteredOut(trips[..|trips| - 1], bookings, ratings);
    }
  }

  lemma {:induction false} ActiveThenTerminal(s: seq<TripDto>) returns (k: nat)
    requires SortedBy(ActiveFirst, s)
    ensures ActiveUpTo(s, k)
  {
    k := 0;
    while k < |s| && !IsFinished(s[k].trip.status)
      invariant k <= |s|
      invariant forall i :: 0 <= i < k ==> !IsFinished(s[i].trip.status)
    {
      k := k + 1;
    }
    forall i | k <= i < |s| ensures IsFinished(s[i].trip.status) {
      assert k < i ==> Compare(ActiveFirst, s[k], s[i]) <= 0;
    }
    forall i, j | 0 <= i < j < |s| && (j < k || k <= i) ensures s[i].trip.departureAt <= s[j].trip.departureAt {
      assert Compare(ActiveFirst, s[i], s[j]) <= 0;
    }
  }
}

/** The driver's earnings per currency, folded over booking views. */
module Earnings {
  import opened Domain
  import opened Seats
  import opened Pricing

  datatype TripView = TripView(currency: Currency, perPerson: int)

  datatype BookingView = BookingView(
    tripId: TripId, seats: nat, status: BookingStatus, paid: bool, trip: Option<TripView>)

  datatype CurrencyEarnings = CurrencyEarnings(currency: Currency, total: int, paid: int, unpaid: int)

  type Trips = map<TripId, TripView>

  /** The trip a booking is priced by: the loaded one, else the one embedded in the booking. */
  function TripFor(b: BookingView, trips: Trips): Option<TripView> {
    if b.tripId in trips then Some(trips[b.tripId]) else b.trip
  }

  /** A booking counts when it is confirmed and its trip is known. */
  predicate Counts(b: BookingView, trips: Trips) {
    b.status == BookingStatus.Confirmed && TripFor(b, trips).Some?
  }

  predicate CountsIn(b: BookingView, trips: Trips, currency: Currency) {
    Counts(b, trips) && TripFor(b, trips).value.currency == currency
  }

  function Amount(b: BookingView, trips: Trips): int
    requires Counts(b, trips)
  {
    b.seats * TripFor(b, trips).value.perPerson
  }

  function Share(b: BookingView, trips: Trips, currency: Currency, paid: bool): int {
    if CountsIn(b, trips, currency) && b.paid == paid then Amount(b, trips) else 0
  }

  /** What the bookings with this paid flag earn in this currency. */
  function Earned(bookings: seq<BookingView>, trips: Trips, currency: Currency, paid: bool): int {
    if bookings == [] then 0
    else
      var last := |bookings| - 1;
      Earned(bookings[..last], trips, currency, paid) + Share(bookings[last], trips, currency, paid)
  }

  /** The currencies in the order in which they first earn something. */
  function FirstSeen(bookings: seq<BookingView>, trips: Trips): seq<Currency> {
    if bookings == [] then []
    else
      var last := |bookings| - 1;
      var seen := FirstSeen(bookings[..last], trips);
      if Counts(bookings[last], trips) && TripFor(bookings[last], trips).value.currency !in seen
      then seen + [TripFor(bookings[last], trips).value.currency]
      else seen
  }

  function RowFor(bookings: seq<BookingView>, trips: Trips, currency: Currency): CurrencyEarnings {
    var paid, unpaid := Earned(bookings, trips, currency, true), Earned(bookings, trips, currency, false);
    CurrencyEarnings(currency, paid + unpaid, paid, unpaid)
  }

  function RowsFor(bookings: seq<BookingView>, trips: Trips): seq<CurrencyEarnings> {
    var order := FirstSeen(bookings, trips);
    seq(|order|, i requires 0 <= i < |order| => RowFor(bookings, trips, order[i]))
  }

  ghost predicate Distinct(order: seq<Currency>) {
    forall i, j :: 0 <= i < j < |order| ==> order[i] != order[j]
  }

  ghost predicate SomeCountsIn(bookings: seq<BookingView>, trips: Trips, currency: Currency) {
    exists b :: b in bookings && CountsIn(b, trips, currency)
  }

  lemma {:induction false} FirstSeenDistinct(bookings: seq<BookingView>, trips: Trips)
    ensures Distinct(FirstSeen(bookings, trips))
  {
    if bookings != [] {
      FirstSeenDistinct(bookings[..|bookings| - 1], trips);
    }
  }

  /** There is a row for exactly the currencies of the bookings that count. */
  lemma {:induction false} FirstSeenExactly(bookings: seq<BookingView>, trips: Trips, currency: Currency)
    ensures currency in FirstSeen(bookings, trips) <==> SomeCountsIn(bookings, trips, currency)
  {
    if bookings != [] {
      var last := |bookings| - 1;
      FirstSeenExactly(bookings[..last], trips, currency);
      assert bookings == bookings[..last] + [bookings[last]];
      if SomeCountsIn(bookings[..last], trips, currency) {
        var b :| b in bookings[..last] && CountsIn(b, trips, currency);
        assert b in bookings;
      } else if SomeCountsIn(bookings, trips, currency) {
        var b :| b in bookings && CountsIn(b, trips, currency);
        assert b in bookings[..last] || b == bookings[last];
      }
      assert bookings[last] in bookings;
    }
  }

  lemma {:induction false} NothingOutsideRows(bookings: seq<BookingView>, trips: Trips, currency: Currency, paid: bool)
    requires currency !in FirstSeen(bookings, trips)
    ensures Earned(bookings, trips, currency, paid) == 0
  {
    if bookings != [] {
      NothingOutsideRows(bookings[..|bookings| - 1], trips, currency, paid);
    }
  }

  function Credited(row: CurrencyEarnings, amount: int, paid: bool): CurrencyEarnings {
    if paid then row.(total := row.total + amount, paid := row.paid + amount)
    else row.(total := row.total + amount, unpaid := row.unpaid + amount)
  }

  /** One booking more adds its amount to one side of one row. */
  lemma RowAfterOne(bookings: seq<BookingView>, i: nat, trips: Trips, currency: Currency)
    requires i < |bookings|
    ensures RowFor(bookings[..i + 1], trips, currency)
         == if CountsIn(bookings[i], trips, currency)
            then Credited(RowFor(bookings[..i], trips, currency), Amount(bookings[i], trips), bookings[i].paid)
            else RowFor(bookings[..i], trips, currency)
  {
    assert bookings[..i + 1][..i] == bookings[..i];
  }

  lemma RowOutside(bookings: seq<BookingView>, trips: Trips, currency: Currency)
    requires currency !in FirstSeen(bookings, trips)
    ensures RowFor(bookings, trips, currency) == CurrencyEarnings(currency, 0, 0, 0)
  {
    NothingOutsideRows(bookings, trips, currency, true);
    NothingOutsideRows(bookings, trips, currency, false);
  }

  /** The accumulator holds the keys seen so far in order, and under each its row. */
  ghost predicate Accumulates(keys: seq<Currency>, byCurrency: map<Currency, CurrencyEarnings>,
                              bookings: seq<BookingView>, trips: Trips) {
    && keys == FirstSeen(bookings, trips)
    && (forall c :: c in byCurrency <==> c in keys)
    && (forall c :: c in byCurrency ==> byCurrency[c] == RowFor(bookings, trips, c))
  }

  lemma SkippedBooking(keys: seq<Currency>, byCurrency: map<Currency, CurrencyEarnings>, bookings: seq<BookingView>,
                       i: nat, trips: Trips)
    requires i < |bookings| && !Counts(bookings[i], trips)
    requires Accumulates(keys, byCurrency, bookings[..i], trips)
    ensures Accumulates(keys, byCurrency, bookings[..i + 1], trips)
  {
    assert bookings[..i + 1][..i] == bookings[..i];
    forall c | c in byCurrency ensures byCurrency[c] == RowFor(bookings[..i + 1], trips, c) {
      RowAfterOne(bookings, i, trips, c);
    }
  }

  lemma CountedBooking(keys: seq<Currency>, byCurrency: map<Currency, CurrencyEarnings>, bookings: seq<BookingView>,
                       i: nat, trips: Trips,
                       currency: Currency, before: CurrencyEarnings)
    requires i < |bookings| && CountsIn(bookings[i], trips, currency)
    requires Accumulates(keys, byCurrency, bookings[..i], trips)
    requires before == if currency in byCurrency then byCurrency[currency] else CurrencyEarnings(currency, 0, 0, 0)
    ensures Accumulates(if currency in byCurrency then keys else keys + [currency],
                        byCurrency[currency := Credited(before, Amount(bookings[i], trips), bookings[i].paid)],
                        bookings[..i + 1], trips)
  {
    assert bookings[..i + 1][..i] == bookings[..i];
    if currency !in byCurrency {
      RowOutside(bookings[..i], trips, currency);
    }
    var after := byCurrency[currency := Credited(before, Amount(bookings[i], trips), bookings[i].paid)];
    forall c | c in after ensures after[c] == RowFor(bookings[..i + 1], trips, c) {
      RowAfterOne(bookings, i, trips, c);
    }
  }

  /** The fold, with an insertion-ordered accumulator: the keys in order, and the row under each key. */
  method AggregateEarnings(bookings: seq<BookingView>, trips: Trips) returns (rows: seq<CurrencyEarnings>)
    ensures rows == RowsFor(bookings, trips)
  {
    var keys: seq<Currency>, byCurrency: map<Currency, CurrencyEarnings> := [], map[];
    for i := 0 to |bookings|
      invariant Accumulates(keys, byCurrency, bookings[..i], trips)
    {
      var booking := bookings[i];
      if !Counts(booking, trips) {
        SkippedBooking(keys, byCurrency, bookings, i, trips);
        continue;
      }
      var currency, amount := TripFor(booking, trips).value.currency, Amount(booking, trips);
      var current := if currency in byCurrency then byCurrency[currency] else CurrencyEarnings(currency, 0, 0, 0);
      CountedBooking(keys, byCurrency, bookings, i, trips, currency, current);
      current := current.(total := current.total + amount);
      if booking.paid {
        current := current.(paid := current.paid + amount);
      } else {
        current := current.(unpaid := current.unpaid + amount);
      }
      if currency !in byCurrency {
        keys := keys + [currency];
      }
      byCurrency := byCurrency[currency := current];
    }
    assert bookings[..|bookings|] == bookings;
    rows := seq(|keys|, i requires 0 <= i < |keys| && keys[i] in byCurrency => byCurrency[keys[i]]);
  }

  // ---- one booking, by the columns alone ----

  /** One confirmed booking earns its seats times the price of the loaded trip, or else of the trip it carries;
      the amount is paid or unpaid as the booking is.  Any other booking earns nothing. */
  lemma OneBookingEarns(b: BookingView, trips: Trips)
    ensures b.status != BookingStatus.Confirmed ==> RowsFor([b], trips) == []
    ensures b.tripId !in trips && b.trip.None? ==> RowsFor([b], trips) == []
    ensures b.status == BookingStatus.Confirmed && (b.tripId in trips || b.trip.Some?) ==>
      var trip := if b.tripId in trips then trips[b.tripId] else b.trip.value;
      var amount := b.seats * trip.perPerson;
      RowsFor([b], trips)
        == [CurrencyEarnings(trip.currency, amount, if b.paid then amount else 0, if b.paid then 0 else amount)]
  {
    assert [b][..0] == [];
    assert FirstSeen([b][..0], trips) == [];
    if Counts(b, trips) {
      var currency := TripFor(b, trips).value.currency;
      assert FirstSeen([b], trips) == [currency];
      assert Earned([b][..0], trips, currency, true) == 0 && Earned([b][..0], trips, currency, false) == 0;
      assert RowsFor([b], trips)[0] == RowFor([b], trips, currency);
    }
  }

  /** And what several earn in a currency is the sum of what they earn. */
  lemma RowsAddUp(a: seq<BookingView>, b: seq<BookingView>, trips: Trips, currency: Currency)
    ensures var both := RowFor(a + b, trips, currency);
            var one, other := RowFor(a, trips, currency), RowFor(b, trips, currency);
            && both.currency == currency && both.total == one.total + other.total
            && both.paid == one.paid + other.paid && both.unpaid == one.unpaid + other.unpaid
  {
    EarnedConcat(a, b, trips, currency, true);
    EarnedConcat(a, b, trips, currency, false);
  }

  // ---- totals ----

  function AllEarned(bookings: seq<BookingView>, trips: Trips): int {
    if bookings == [] then 0
    else
      var last := |bookings| - 1;
      AllEarned(bookings[..last], trips) + if Counts(bookings[last], trips) then Amount(bookings[last], trips) else 0
  }

  function SumOfTotals(rows: seq<CurrencyEarnings>): int {
    if rows == [] then 0 else SumOfTotals(rows[..|rows| - 1]) + rows[|rows| - 1].total
  }

  lemma {:induction false} EarnedByCurrency(bookings: seq<BookingView>, trips: Trips)
    ensures AllEarned(bookings, trips)
         == Earned(bookings, trips, Eur, true) + Earned(bookings, trips, Eur, false)
          + Earned(bookings, trips, Rsd, true) + Earned(bookings, trips, Rsd, false)
  {
    if bookings != [] {
      EarnedByCurrency(bookings[..|bookings| - 1], trips);
    }
  }

  /** The totals of the rows add up to seats times price over every booking that counts. */
  lemma RowTotalsAddUp(bookings: seq<BookingView>, trips: Trips)
    ensures SumOfTotals(RowsFor(bookings, trips)) == AllEarned(bookings, trips)
  {
    var order, rows := FirstSeen(bookings, trips), RowsFor(bookings, trips);
    FirstSeenDistinct(bookings, trips);
    EarnedByCurrency(bookings, trips);
    forall c, p | c !in order ensures Earned(bookings, trips, c, p) == 0 {
      NothingOutsideRows(bookings, trips, c, p);
    }
    AtMostTwo(order);
    if |order| == 1 {
      assert rows[..0] == [];
      assert SumOfTotals(rows) == rows[0].total;
      assert order[0] == Eur ==> Rsd !in order;
      assert order[0] == Rsd ==> Eur !in order;
    } else if |order| == 2 {
      assert rows[..1][..0] == [] && rows[..1][0] == rows[0];
      assert SumOfTotals(rows[..1]) == rows[0].total;
      assert SumOfTotals(rows) == rows[0].total + rows[1].total;
    }
  }

  lemma AtMostTwo(order: seq<Currency>)
    requires Distinct(order)
    ensures |order| <= 2 && (|order| == 2 ==> order[0] != order[1])
  {
    assert |order| >= 3 ==> order[0] != order[1] && order[1] != order[2] && order[0] != order[2];
  }

  // ---- order independence ----

  lemma {:induction false} EarnedConcat(a: seq<BookingView>, b: seq<BookingView>, trips: Trips, currency: Currency,
                                        paid: bool)
    ensures Earned(a + b, trips, currency, paid) == Earned(a, trips, currency, paid) + Earned(b, trips, currency, paid)
  {
    if b == [] {
      assert a + b == a;
    } else {
      var last := |b| - 1;
      EarnedConcat(a, b[..last], trips, currency, paid);
      assert (a + b)[..|a + b| - 1] == a + b[..last];
    }
  }

  lemma EarnedWithout(b: seq<BookingView>, j: nat, trips: Trips, currency: Currency, paid: bool)
    requires j < |b|
    ensures Earned(b, trips, currency, paid)
         == Earned(b[..j] + b[j + 1..], trips, currency, paid) + Share(b[j], trips, currency, paid)
    ensures multiset(b) == multiset(b[..j] + b[j + 1..]) + multiset{b[j]}
  {
    var front, back := b[..j], b[j + 1..];
    assert b == front + ([b[j]] + back);
    EarnedConcat(front, back, trips, currency, paid);
    EarnedConcat([b[j]], back, trips, currency, paid);
    EarnedConcat(front, [b[j]] + back, trips, currency, paid);
    assert [b[j]][..0] == [];
  }

  /** Reordering the bookings changes no amount. */
  lemma {:induction false} EarningsIgnoreOrder(a: seq<BookingView>, b: seq<BookingView>, trips: Trips,
                                               currency: Currency, paid: bool)
    requires multiset(a) == multiset(b)
    ensures Earned(a, trips, currency, paid) == Earned(b, trips, currency, paid)
    decreases |a|
  {
    if a == [] {
      assert |b| == |multiset(b)| == |multiset(a)| == 0;
    } else {
      var last := |a| - 1;
      assert a[..last] + a[last + 1..] == a[..last];
      assert a[last] in multiset(b);
      var j :| 0 <= j < |b| && b[j] == a[last];
      EarnedWithout(a, last, trips, currency, paid);
      EarnedWithout(b, j, trips, currency, paid);
      assert multiset(a[..last]) == multiset(a) - multiset{a[last]};
      EarningsIgnoreOrder(a[..last], b[..j] + b[j + 1..], trips, currency, paid);
    }
  }

  /** So the rows are the same, up to their order. */
  lemma RowsIgnoreOrder(a: seq<BookingView>, b: seq<BookingView>, trips: Trips, row: CurrencyEarnings)
    requires multiset(a) == multiset(b)
    ensures row in RowsFor(a, trips) <==> row in RowsFor(b, trips)
  {
    RowsCarryOver(a, b, trips, row);
    RowsCarryOver(b, a, trips, row);
  }

  lemma RowsCarryOver(a: seq<BookingView>, b: seq<BookingView>, trips: Trips, row: CurrencyEarnings)
    requires multiset(a) == multiset(b)
    ensures row in RowsFor(a, trips) ==> row in RowsFor(b, trips)
  {
    if row in RowsFor(a, trips) {
      var c := row.currency;
      FirstSeenExactly(a, trips, c);
      FirstSeenExactly(b, trips, c);
      assert c in FirstSeen(a, trips);
      var x :| x in a && CountsIn(x, trips, c);
      assert x in multiset(a) && x in multiset(b);
      EarningsIgnoreOrder(a, b, trips, c, true);
      EarningsIgnoreOrder(a, b, trips, c, false);
      var k :| 0 <= k < |FirstSeen(b, trips)| && FirstSeen(b, trips)[k] == c;
      assert RowsFor(b, trips)[k] == row;
    }
  }

  // ---- the paid flag ----

  lemma {:induction false} EarnedAfterChange(bookings: seq<BookingView>, i: nat, b: BookingView, trips: Trips,
                                             currency: Currency, paid: bool)
    requires i < |bookings|
    ensures Earned(bookings[i := b], trips, currency, paid) + Share(bookings[i], trips, currency, paid)
         == Earned(bookings, trips, currency, paid) + Share(b, trips, currency, paid)
  {
    var last := |bookings| - 1;
    if i == last {
      assert bookings[i := b][..last] == bookings[..last];
    } else {
      EarnedAfterChange(bookings[..last], i, b, trips, currency, paid);
      assert bookings[i := b][..last] == bookings[..last][i := b];
    }
  }

  lemma {:induction false} FirstSeenAfterChange(bookings: seq<BookingView>, i: nat, b: BookingView, trips: Trips)
    requires i < |bookings| && b == bookings[i].(paid := b.paid)
    ensures FirstSeen(bookings[i := b], trips) == FirstSeen(bookings, trips)
  {
    var last := |bookings| - 1;
    if i == last {
      assert bookings[i := b][..last] == bookings[..last];
    } else {
      FirstSeenAfterChange(bookings[..last], i, b, trips);
      assert bookings[i := b][..last] == bookings[..last][i := b];
    }
  }

  /** Flipping one paid flag, either way, keeps the rows, their order and their totals, and moves exactly
      that booking's amount between the two sides of the row of its currency. */
  lemma FlippingPaidMovesAmount(bookings: seq<BookingView>, i: nat, trips: Trips)
    requires i < |bookings|
    ensures var flipped := bookings[i := bookings[i].(paid := !bookings[i].paid)];
            var before, after := RowsFor(bookings, trips), RowsFor(flipped, trips);
            && |after| == |before|
            && forall k :: 0 <= k < |before| ==>
                 var amount := if CountsIn(bookings[i], trips, before[k].currency)
                     then Amount(bookings[i], trips) else 0;
                 var moved := if bookings[i].paid then -amount else amount;
                 after[k] == before[k].(paid := before[k].paid + moved, unpaid := before[k].unpaid - moved)
  {
    var b := bookings[i].(paid := !bookings[i].paid);
    FirstSeenAfterChange(bookings, i, b, trips);
    forall c: Currency, p: bool {
      EarnedAfterChange(bookings, i, b, trips, c, p);
    }
  }

  // ---- against the price ----

  /** The views of the stored bookings, with no embedded trip. */
  function Views(bookings: seq<Booking>): seq<BookingView> {
    seq(|bookings|, i requires 0 <= i < |bookings| =>
      BookingView(bookings[i].tripId, bookings[i].seats, bookings[i].status, bookings[i].paid, None))
  }

  lemma {:induction false} EarnedIsSeatsTimesPrice(bookings: seq<Booking>, t: TripId, view: TripView)
    ensures RowFor(Views(bookings), map[t := view], view.currency).total == ConfirmedSeats(bookings, t) * view.perPerson
  {
    if bookings != [] {
      var last := |bookings| - 1;
      EarnedIsSeatsTimesPrice(bookings[..last], t, view);
      assert Views(bookings)[..last] == Views(bookings[..last]);
      assert Share(Views(bookings)[last], map[t := view], view.currency, true)
           + Share(Views(bookings)[last], map[t := view], view.currency, false)
           == Held(bookings[last], t) * view.perPerson;
      assert (ConfirmedSeats(bookings[..last], t) + Held(bookings[last], t)) * view.perPerson
          == ConfirmedSeats(bookings[..last], t) * view.perPerson + Held(bookings[last], t) * view.perPerson;
    }
  }

  /** A shared trip of a driver, and how it is priced: at its own confirmed seats. */
  datatype Ride = Ride(id: TripId, currency: Currency, totalCost: nat, min: Positive, max: Positive)

  function PricedAlone(ride: Ride, bookings: seq<Booking>): TripView {
    TripView(ride.currency,
             Calculate(SharedTotal, ride.totalCost, ride.min, ride.max, ConfirmedSeats(bookings, ride.id)).perPerson)
  }

  function Priced(rides: seq<Ride>, bookings: seq<Booking>): Trips {
    if rides == [] then map[]
    else
      var last := rides[|rides| - 1];
      Priced(rides[..|rides| - 1], bookings)[last.id := PricedAlone(last, bookings)]
  }

  ghost predicate DistinctRides(rides: seq<Ride>) {
    forall i, j :: 0 <= i < j < |rides| ==> rides[i].id != rides[j].id
  }

  /** How the rides of one currency add up. */
  datatype Sums = Sums(rides: nat, cost: nat, seats: nat, divisors: nat)

  function SumsIn(rides: seq<Ride>, bookings: seq<Booking>, currency: Currency): Sums {
    if rides == [] then Sums(0, 0, 0, 0)
    else
      var last, s := rides[|rides| - 1], SumsIn(rides[..|rides| - 1], bookings, currency);
      if last.currency != currency then s
      else
        var confirmed := ConfirmedSeats(bookings, last.id);
        Sums(s.rides + 1, s.cost + last.totalCost, s.seats + confirmed, s.divisors + Max(last.min, confirmed))
  }

  ghost predicate MinimumsMet(rides: seq<Ride>, bookings: seq<Booking>, currency: Currency) {
    forall i :: 0 <= i < |rides| && rides[i].currency == currency ==>
      rides[i].min <= ConfirmedSeats(bookings, rides[i].id)
  }

  lemma {:induction false} OnlyRidesPriced(rides: seq<Ride>, bookings: seq<Booking>, id: TripId)
    ensures id in Priced(rides, bookings) <==> exists i :: 0 <= i < |rides| && rides[i].id == id
  {
    if rides != [] {
      var front := rides[..|rides| - 1];
      OnlyRidesPriced(front, bookings, id);
      if id in Priced(front, bookings) {
        var i :| 0 <= i < |front| && front[i].id == id;
        assert rides[i].id == id;
      } else if exists i :: 0 <= i < |rides| && rides[i].id == id {
        var i :| 0 <= i < |rides| && rides[i].id == id;
        assert i < |front| ==> front[i].id == id;
      }
    }
  }

  /** One trip more adds what it earns alone. */
  lemma {:induction false} EarningsAdd(bookings: seq<Booking>, trips: Trips, t: TripId, view: TripView,
                                       currency: Currency, paid: bool)
    requires t !in trips
    ensures Earned(Views(bookings), trips[t := view], currency, paid)
         == Earned(Views(bookings), trips, currency, paid) + Earned(Views(bookings), map[t := view], currency, paid)
  {
    if bookings != [] {
      EarningsAdd(bookings[..|bookings| - 1], trips, t, view, currency, paid);
      assert Views(bookings)[..|bookings| - 1] == Views(bookings[..|bookings| - 1]);
    }
  }

  lemma {:induction false} NothingInOtherCurrency(bookings: seq<BookingView>, t: TripId, view: TripView,
                                                  currency: Currency, paid: bool)
    requires view.currency != currency && forall b :: b in bookings ==> b.trip.None?
    ensures Earned(bookings, map[t := view], currency, paid) == 0
  {
    if bookings != [] {
      assert bookings[|bookings| - 1] in bookings;
      NothingInOtherCurrency(bookings[..|bookings| - 1], t, view, currency, paid);
    }
  }

  /** A driver's shared trips, each priced at its own confirmed seats: what the driver is shown to earn in a
      currency covers the costs once the minimums are reached, and exceeds them, ride by ride, by less than
      one minor unit per seat charged. */
  lemma {:induction false} EarningsCoverTheCosts(bookings: seq<Booking>, rides: seq<Ride>, currency: Currency)
    requires DistinctRides(rides)
    ensures var s := SumsIn(rides, bookings, currency);
            var e := RowFor(Views(bookings), Priced(rides, bookings), currency).total;
            && e <= s.cost + s.divisors - s.rides
            && (MinimumsMet(rides, bookings, currency) ==> s.cost <= e <= s.cost + s.seats - s.rides)
  {
    if rides == [] {
      NothingWithoutTrips(Views(bookings), currency, true);
      NothingWithoutTrips(Views(bookings), currency, false);
    } else {
      var front, last := rides[..|rides| - 1], rides[|rides| - 1];
      EarningsCoverTheCosts(bookings, front, currency);
      OnlyRidesPriced(front, bookings, last.id);
      var view := PricedAlone(last, bookings);
      EarningsAdd(bookings, Priced(front, bookings), last.id, view, currency, true);
      EarningsAdd(bookings, Priced(front, bookings), last.id, view, currency, false);
      if last.currency == currency {
        EarningsCoverTheCost(bookings, last.id, currency, last.totalCost, last.min, last.max);
      } else {
        NothingInOtherCurrency(Views(bookings), last.id, view, currency, true);
        NothingInOtherCurrency(Views(bookings), last.id, view, currency, false);
      }
    }
  }

  lemma {:induction false} NothingWithoutTrips(bookings: seq<BookingView>, currency: Currency, paid: bool)
    requires forall b :: b in bookings ==> b.trip.None?
    ensures Earned(bookings, map[], currency, paid) == 0
  {
    if bookings != [] {
      assert bookings[|bookings| - 1] in bookings;
      NothingWithoutTrips(bookings[..|bookings| - 1], currency, paid);
    }
  }

  /** A shared trip priced at its own confirmed seats: what the driver is shown to earn from it covers the
      cost once the minimum is reached, and exceeds it by less than one minor unit per seat charged. */
  lemma EarningsCoverTheCost(bookings: seq<Booking>, t: TripId, currency: Currency, totalCost: nat, min: Positive,
                             max: Positive)
    ensures var confirmed := ConfirmedSeats(bookings, t);
            var price := Calculate(SharedTotal, totalCost, min, max, confirmed).perPerson;
            var e := RowFor(Views(bookings), map[t := TripView(currency, price)], currency).total;
            && e < totalCost + Max(min, confirmed)
            && (confirmed >= min ==> totalCost <= e < totalCost + confirmed)
  {
    var confirmed := ConfirmedSeats(bookings, t);
    EarnedIsSeatsTimesPrice(bookings, t,
      TripView(currency, Calculate(SharedTotal, totalCost, min, max, confirmed).perPerson));
    OverCollectionBound(totalCost, min, max, confirmed);
  }
}

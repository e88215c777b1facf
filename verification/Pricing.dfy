/** The live per-person price of a trip. */
module Pricing {
  import opened Domain

  datatype LivePrice = LivePrice(perPerson: int, lowerBound: int, upperBound: int)

  /** The quotient rounded towards plus infinity. */
  function CeilDiv(a: int, b: int): (q: int)
    requires b > 0
    ensures (q - 1) * b < a <= q * b
    ensures a >= 0 ==> q >= 0
  {
    (a + b - 1) / b
  }

  /** The price of one seat: for a shared trip the cost divided by the confirmed seats, but by no fewer
      than the minimum and never by zero. */
  function PerPerson(mode: PricingMode, totalCost: int, min: int, confirmed: nat): int {
    if mode == FixedPerSeat then totalCost else CeilDiv(totalCost, Max(Max(min, confirmed), 1))
  }

  /** The band divides by the minimum and the maximum alone, which are at least one for a stored trip. */
  function Calculate(mode: PricingMode, totalCost: int, min: Positive, max: Positive, confirmed: nat): LivePrice {
    if mode == FixedPerSeat then LivePrice(totalCost, totalCost, totalCost)
    else LivePrice(PerPerson(mode, totalCost, min, confirmed), CeilDiv(totalCost, min), CeilDiv(totalCost, max))
  }

  /** A fixed price is what every passenger pays.  A shared one is the smallest that, paid by the confirmed
      passengers but by no fewer than the minimum, covers the cost; the band is what it would be with the
      minimum, and with the trip full. */
  lemma PriceInWords(totalCost: nat, min: Positive, max: Positive, confirmed: nat)
    ensures Calculate(FixedPerSeat, totalCost, min, max, confirmed) == LivePrice(totalCost, totalCost, totalCost)
    ensures var p := Calculate(SharedTotal, totalCost, min, max, confirmed);
            && Covers(p.perPerson, if confirmed < min then min else confirmed, totalCost)
            && Covers(p.lowerBound, min, totalCost)
            && Covers(p.upperBound, max, totalCost)
  {
  }

  /** The smallest price that covers the cost when this many pay it. */
  ghost predicate Covers(price: int, payers: Positive, totalCost: nat) {
    totalCost <= price * payers && (price - 1) * payers < totalCost
  }

  /** Rounding up and dividing by more never gives more. */
  lemma CeilDivAntitone(a: int, small: int, large: int)
    requires 0 <= a && 0 < small <= large
    ensures CeilDiv(a, large) <= CeilDiv(a, small)
  {
    var p, q := CeilDiv(a, small), CeilDiv(a, large);
    assert (q - 1) * large < a <= p * small <= p * large;
    LessByFactor(q - 1, p, large);
  }

  lemma LessByFactor(x: int, y: int, factor: nat)
    requires x * factor < y * factor
    ensures x < y
  {
    assert (y - x) * factor == y * factor - x * factor;
  }

  /** More confirmed seats never cost a passenger more, whatever the minimum. */
  lemma PriceFallsWithSeats(mode: PricingMode, totalCost: nat, min: int, fewer: nat, more: nat)
    requires fewer <= more
    ensures PerPerson(mode, totalCost, min, more) <= PerPerson(mode, totalCost, min, fewer)
  {
    if mode == SharedTotal {
      CeilDivAntitone(totalCost, Max(Max(min, fewer), 1), Max(Max(min, more), 1));
    }
  }

  /** Within capacity the live price stays inside the advertised band. */
  lemma PriceWithinBand(mode: PricingMode, totalCost: nat, min: Positive, max: Positive, confirmed: nat)
    requires min <= max && confirmed <= max
    ensures var p := Calculate(mode, totalCost, min, max, confirmed);
            p.upperBound <= p.perPerson <= p.lowerBound
  {
    if mode == SharedTotal {
      CeilDivAntitone(totalCost, Max(min, confirmed), max);
      CeilDivAntitone(totalCost, min, Max(min, confirmed));
    }
  }

  /** And outside capacity some shared price leaves the band: being within capacity is all that keeps every
      price inside. */
  lemma BandIffWithinCapacity(min: Positive, max: Positive, confirmed: nat)
    requires min <= max
    ensures confirmed <= max <==>
      forall mode: PricingMode, totalCost: nat ::
        var p := Calculate(mode, totalCost, min, max, confirmed); p.upperBound <= p.perPerson <= p.lowerBound
  {
    forall mode: PricingMode, totalCost: nat | confirmed <= max
      ensures var p := Calculate(mode, totalCost, min, max, confirmed); p.upperBound <= p.perPerson <= p.lowerBound
    {
      PriceWithinBand(mode, totalCost, min, max, confirmed);
    }
    if confirmed > max {
      var totalCost: nat := max * confirmed;
      ExactQuotient(max, confirmed);
      ExactQuotient(confirmed, max);
      var p := Calculate(SharedTotal, totalCost, min, max, confirmed);
      assert p.perPerson == max && p.upperBound == confirmed;
    }
  }

  lemma ExactQuotient(q: nat, b: Positive)
    ensures q * b == b * q && CeilDiv(q * b, b) == q
  {
    var p := CeilDiv(q * b, b);
    assert (q - 1) * b == q * b - b;
    LessByFactor(p - 1, q, b);
    LessByFactor(q - 1, p, b);
  }

  /** What the driver of a shared trip collects: never short once the minimum is reached, and
      never more than one minor unit too much for each seat the cost was divided by. */
  lemma OverCollectionBound(totalCost: nat, min: Positive, max: Positive, confirmed: nat)
    ensures var e := confirmed * Calculate(SharedTotal, totalCost, min, max, confirmed).perPerson;
            && e < totalCost + Max(min, confirmed)
            && (confirmed >= min ==> totalCost <= e < totalCost + confirmed)
  {
    var divisor := Max(min, confirmed);
    var p := CeilDiv(totalCost, divisor);
    assert (p - 1) * divisor < totalCost <= p * divisor;
    assert (p - 1) * divisor == p * divisor - divisor;
    assert confirmed * p <= p * divisor;
  }
}

/**
 * scripts/billing-probe-math.ts: invoice amounts in whole rials. The single rule derives the total
 * and rounds to the nearest rial; the forbidden second path rounds down. The gap between the two is
 * bounded exactly, and unbounded once a fixed coupon exceeds the subtotal.
 */
module Billing {
  import opened Text

  datatype Coupon = Coupon(percentOff: Option<int>, amountOffRial: Option<int>)

  datatype Amounts = Amounts(subtotalRial: int, discountRial: int, vatRial: int, totalRial: int)

  /** `Math.round((base * percent) / 100)`: to the nearest, a half up. */
  function PercentOf(base: int, percent: int): (r: int)
    ensures -50 < 100 * r - base * percent <= 50
  {
    (2 * (base * percent) + 100) / 200
  }

  function Discount(subtotal: int, coupon: Option<Coupon>): int {
    var off :=
      if coupon.None? then 0
      else if coupon.value.percentOff.Some? then PercentOf(subtotal, coupon.value.percentOff.value)
      else if coupon.value.amountOffRial.Some? then coupon.value.amountOffRial.value
      else 0;
    if off < subtotal then off else subtotal
  }

  function ComputeAmounts(unitPriceRial: int, seats: int, coupon: Option<Coupon>, vatPercent: int): Amounts {
    var subtotal := unitPriceRial * seats;
    var discount := Discount(subtotal, coupon);
    var taxable := subtotal - discount;
    var vat := PercentOf(taxable, vatPercent);
    Amounts(subtotal, discount, vat, taxable + vat)
  }

  /** The gateway's amount computed apart, with every ratio rounded down and no cap on the coupon. */
  function GatewayAmountSecondPath(unitPriceRial: int, seats: int, coupon: Option<Coupon>, vatPercent: int): int {
    var subtotal := unitPriceRial * seats;
    var discount :=
      if coupon.Some? && coupon.value.percentOff.Some? then (subtotal * coupon.value.percentOff.value) / 100
      else if coupon.Some? && coupon.value.amountOffRial.Some? then coupon.value.amountOffRial.value
      else 0;
    var taxable := subtotal - discount;
    taxable + (taxable * vatPercent) / 100
  }

  /** What the checkout sells: nothing negative. */
  predicate Sale(unitPriceRial: int, seats: int, coupon: Option<Coupon>, vatPercent: int) {
    && unitPriceRial >= 0 && seats >= 0 && vatPercent >= 0
    && (coupon.Some? && coupon.value.percentOff.Some? ==> coupon.value.percentOff.value >= 0)
    && (coupon.Some? && coupon.value.amountOffRial.Some? ==> coupon.value.amountOffRial.value >= 0)
  }

  lemma Ordered(a: int, b: int, k: int)
    requires a <= b && k >= 0
    ensures a * k <= b * k && k * a <= k * b
  {}

  /** Every amount is non-negative, the discount is within the subtotal, and the four balance. */
  lemma AmountsBalance(price: int, seats: int, coupon: Option<Coupon>, vat: int)
    requires Sale(price, seats, coupon, vat)
    ensures var a := ComputeAmounts(price, seats, coupon, vat);
            && a.subtotalRial - a.discountRial + a.vatRial == a.totalRial
            && 0 <= a.discountRial <= a.subtotalRial && 0 <= a.vatRial && 0 <= a.totalRial
  {
    hide PercentOf, Discount;
    var subtotal := price * seats;
    Ordered(0, price, seats);
    DiscountWithin(subtotal, coupon);
    PercentIsNotNegative(subtotal - Discount(subtotal, coupon), vat);
  }

  lemma PercentIsNotNegative(base: int, percent: int)
    requires base >= 0 && percent >= 0
    ensures PercentOf(base, percent) >= 0
  {
    Ordered(0, base, percent);
  }

  lemma DiscountWithin(subtotal: int, coupon: Option<Coupon>)
    requires subtotal >= 0
    requires coupon.Some? && coupon.value.percentOff.Some? ==> coupon.value.percentOff.value >= 0
    requires coupon.Some? && coupon.value.amountOffRial.Some? ==> coupon.value.amountOffRial.value >= 0
    ensures 0 <= Discount(subtotal, coupon) <= subtotal
  {
    hide PercentOf;
    if coupon.Some? && coupon.value.percentOff.Some? {
      PercentIsNotNegative(subtotal, coupon.value.percentOff.value);
    }
  }

  /** A percentage up to 100 grows no faster than its base. */
  lemma PercentGrowsSlowly(x: int, y: int, percent: int)
    requires x <= y && 0 <= percent
    ensures PercentOf(x, percent) <= PercentOf(y, percent)
    ensures percent <= 100 ==> PercentOf(y, percent) - PercentOf(x, percent) <= y - x
  {
    Ordered(x, y, percent);
    if percent <= 100 {
      Ordered(percent, 100, y - x);
      assert y * percent - x * percent == percent * (y - x);
    }
  }

  lemma MoreThanAll(x: int, percent: int)
    requires x >= 0 && percent > 100
    ensures PercentOf(x, percent) >= x
  {
    Ordered(100, percent, x);
  }

  lemma TaxableGrows(x: int, y: int, coupon: Option<Coupon>)
    requires 0 <= x <= y
    requires coupon.Some? && coupon.value.percentOff.Some? ==> coupon.value.percentOff.value >= 0
    ensures x - Discount(x, coupon) <= y - Discount(y, coupon)
  {
    hide PercentOf;
    if coupon.Some? && coupon.value.percentOff.Some? {
      var p := coupon.value.percentOff.value;
      PercentGrowsSlowly(x, y, p);
      if p > 100 {
        MoreThanAll(x, p);
        MoreThanAll(y, p);
      }
    }
  }

  /** Neither a higher price nor more seats ever lowers the total. */
  lemma TotalNeverFalls(price: int, morePrice: int, seats: int, moreSeats: int, coupon: Option<Coupon>, vat: int)
    requires Sale(price, seats, coupon, vat) && price <= morePrice && seats <= moreSeats
    ensures ComputeAmounts(price, seats, coupon, vat).totalRial
            <= ComputeAmounts(morePrice, moreSeats, coupon, vat).totalRial
  {
    hide PercentOf, Discount;
    Ordered(price, morePrice, seats);
    Ordered(seats, moreSeats, morePrice);
    Ordered(0, price, seats);
    TaxableGrows(price * seats, morePrice * moreSeats, coupon);
    PercentGrowsSlowly(price * seats - Discount(price * seats, coupon),
                       morePrice * moreSeats - Discount(morePrice * moreSeats, coupon), vat);
  }

  // ----- each kind of coupon -----

  /** Without a coupon, or with one that takes nothing off, the full price is charged. */
  lemma FullPrice(price: int, seats: int, coupon: Option<Coupon>, vat: int)
    requires price >= 0 && seats >= 0 && (coupon.None? || coupon == Some(Coupon(None, None)))
    ensures var a := ComputeAmounts(price, seats, coupon, vat);
            a.subtotalRial == price * seats && a.discountRial == 0 && a.totalRial == price * seats + a.vatRial
            && -50 < 100 * a.vatRial - price * seats * vat <= 50
  {
    Ordered(0, price, seats);
    hide PercentOf;
  }

  /** A percentage takes off its share to the nearest rial, at most all; a fixed amount beside it is ignored. */
  lemma PercentageOff(price: int, seats: int, p: int, amount: Option<int>, vat: int)
    requires price >= 0 && seats >= 0
    ensures var a := ComputeAmounts(price, seats, Some(Coupon(Some(p), amount)), vat);
            a.subtotalRial == price * seats && a.totalRial == price * seats - a.discountRial + a.vatRial
            && -50 < 100 * a.vatRial - (price * seats - a.discountRial) * vat <= 50
            && (0 <= p <= 100 ==> -50 < 100 * a.discountRial - price * seats * p <= 50)
            && (p > 100 ==> a.discountRial == price * seats)
  {
    Ordered(0, price, seats);
    var subtotal := price * seats;
    if p > 100 { MoreThanAll(subtotal, p); } else if p >= 0 { NoCap(subtotal, p); }
    hide PercentOf;
  }

  /** A fixed amount is taken off as it is, up to the subtotal. */
  lemma AmountOff(price: int, seats: int, amount: int, vat: int)
    ensures var a := ComputeAmounts(price, seats, Some(Coupon(None, Some(amount))), vat);
            a.subtotalRial == price * seats && a.totalRial == price * seats - a.discountRial + a.vatRial
            && -50 < 100 * a.vatRial - (price * seats - a.discountRial) * vat <= 50
            && a.discountRial == if amount <= price * seats then amount else price * seats
  {
    hide PercentOf;
  }

  // ----- the two paths -----

  /** The invoice's total less the gateway's amount. */
  function Drift(price: int, seats: int, coupon: Option<Coupon>, vat: int): int {
    ComputeAmounts(price, seats, coupon, vat).totalRial - GatewayAmountSecondPath(price, seats, coupon, vat)
  }

  function Percent(p: int): Option<Coupon> { Some(Coupon(Some(p), None)) }

  function Fixed(amount: int): Option<Coupon> { Some(Coupon(None, Some(amount))) }

  /** How the drift comes about: `r` and `q` are what each division leaves over. */
  lemma PercentDrift(price: int, seats: int, p: int, vat: int)
    requires price >= 0 && seats >= 0 && 0 <= p <= 100 && vat >= 0
    ensures var subtotal := price * seats;
            var r := (subtotal * p) % 100;
            var q := (ComputeAmounts(price, seats, Percent(p), vat).subtotalRial
                      - ComputeAmounts(price, seats, Percent(p), vat).discountRial) * vat % 100;
            Drift(price, seats, Percent(p), vat)
              == (if q >= 50 then 1 else 0) - (if r >= 50 then 1 + (q + vat) / 100 else 0)
  {
    Ordered(0, price, seats);
    var subtotal := price * seats;
    NoCap(subtotal, p);
    var d := PercentOf(subtotal, p);
    var t := subtotal - d;
    RoundVersusFloor(subtotal * p);
    RoundVersusFloor(t * vat);
    OneMore(t, vat);
  }

  /** Up to a full discount the cap never bites. */
  lemma NoCap(subtotal: int, p: int)
    requires subtotal >= 0 && 0 <= p <= 100
    ensures 0 <= PercentOf(subtotal, p) <= subtotal
    ensures Discount(subtotal, Percent(p)) == PercentOf(subtotal, p)
  {}

  lemma RoundVersusFloor(a: int)
    ensures (2 * a + 100) / 200 == a / 100 + if a % 100 >= 50 then 1 else 0
  {}

  lemma OneMore(t: int, vat: int)
    ensures ((t + 1) * vat) / 100 == t * vat / 100 + (t * vat % 100 + vat) / 100
  {
    assert (t + 1) * vat == t * vat + vat;
  }

  /** A percent coupon: within one rial for VAT up to 50, from two below to one above up to 100. */
  lemma DriftIsBounded(price: int, seats: int, p: int, vat: int)
    requires price >= 0 && seats >= 0 && 0 <= p <= 100 && 0 <= vat <= 100
    ensures -2 <= Drift(price, seats, Percent(p), vat) <= 1
    ensures vat <= 50 ==> -1 <= Drift(price, seats, Percent(p), vat)
  {
    hide Drift, ComputeAmounts;
    PercentDrift(price, seats, p, vat);
  }

  /** The paths agree exactly here; `q` and `r` are the two remainders. */
  lemma PathsAgreeIff(price: int, seats: int, p: int, vat: int)
    requires price >= 0 && seats >= 0 && 0 <= p <= 100 && vat >= 0
    ensures var r := (price * seats * p) % 100;
            var q := (price * seats - PercentOf(price * seats, p)) * vat % 100;
            Drift(price, seats, Percent(p), vat) == 0 <==> if r < 50 then q < 50 else q >= 50 && q + vat < 100
  {
    hide Drift;
    PercentDrift(price, seats, p, vat);
    Ordered(0, price, seats);
    NoCap(price * seats, p);
  }

  /** The bounds are reached, and 50 is the last VAT that keeps the tighter one. */
  lemma DriftIsTight()
    ensures Drift(1_000_005, 1, Percent(0), 10) == 1
    ensures Drift(1, 1, Percent(50), 50) == -1
    ensures Drift(1, 1, Percent(50), 100) == -2
    ensures Drift(108, 1, Percent(8), 51) == -2
  {
    hide Drift, ComputeAmounts;
    UpperBoundReached();
    LowerBoundsReached();
    JustAboveFifty();
  }

  lemma UpperBoundReached()
    ensures Drift(1_000_005, 1, Percent(0), 10) == 1
  {
    hide Drift;
    DriftAt(1_000_005, 0, 10);
  }

  lemma LowerBoundsReached()
    ensures Drift(1, 1, Percent(50), 50) == -1 && Drift(1, 1, Percent(50), 100) == -2
  {
    hide Drift;
    DriftAt(1, 50, 50);
    DriftAt(1, 50, 100);
  }

  lemma JustAboveFifty()
    ensures Drift(108, 1, Percent(8), 51) == -2
  {
    hide Drift;
    DriftAt(108, 8, 51);
  }

  /** PercentDrift for one seat, in numbers that can be worked out. */
  lemma DriftAt(price: int, p: int, vat: int)
    requires price >= 0 && 0 <= p <= 100 && vat >= 0
    ensures var q := (price - (2 * (price * p) + 100) / 200) * vat % 100;
            Drift(price, 1, Percent(p), vat)
              == (if q >= 50 then 1 else 0) - (if (price * p) % 100 >= 50 then 1 + (q + vat) / 100 else 0)
  {
    hide Drift;
    PercentDrift(price, 1, p, vat);
    assert price * 1 == price;
    NoCap(price, p);
  }

  /** A fixed coupon within the subtotal: only the VAT's rounding is left. */
  lemma CappedCouponDrift(price: int, seats: int, amount: int, vat: int)
    requires price >= 0 && seats >= 0 && vat >= 0 && amount <= price * seats
    ensures Drift(price, seats, Fixed(amount), vat) == if (price * seats - amount) * vat % 100 >= 50 then 1 else 0
  {
    RoundVersusFloor((price * seats - amount) * vat);
  }

  /** Without a discount the paths differ by the VAT's rounding alone. */
  lemma FullPriceDrift(price: int, seats: int, coupon: Option<Coupon>, vat: int)
    requires price >= 0 && seats >= 0 && (coupon.None? || coupon == Some(Coupon(None, None)))
    ensures Drift(price, seats, coupon, vat) == if price * seats * vat % 100 >= 50 then 1 else 0
  {
    Ordered(0, price, seats);
    RoundVersusFloor(price * seats * vat);
  }

  /** Above the subtotal the second path goes negative and the gap is the excess with its VAT. */
  lemma ExcessCouponDrift(price: int, seats: int, amount: int, vat: int)
    requires price >= 0 && seats >= 0 && vat >= 0 && amount > price * seats
    ensures var excess := amount - price * seats;
            Drift(price, seats, Fixed(amount), vat) == excess - (-excess * vat) / 100 >= excess
  {}
}

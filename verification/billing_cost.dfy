// What a new invoice charges, stated about the rows of the tariff table rather than about the queries that sum them up.

module BillingCost {
  import opened Text
  import opened BillingPeriod
  import opened Billing
  import Windows

  ghost predicate StartsWithin(t: Tariff, region: string, p: Period) {
    t.active && t.region == region && p.start <= t.effectiveFrom && t.effectiveFrom <= p.end
  }

  /** The prices of the active tariffs of the region that start within the period, in table order. */
  ghost function Prices(ts: seq<Tariff>, region: string, p: Period): seq<real> {
    if ts == [] then []
    else
      var t := ts[|ts| - 1];
      Prices(ts[..|ts| - 1], region, p) +
      if StartsWithin(t, region, p) then [t.price] else []
  }

  lemma {:induction false} SumAndCount(ts: seq<Tariff>, region: string, p: Period)
    ensures PriceCount(ts, region, p) == |Prices(ts, region, p)|
    ensures PriceSum(ts, region, p) == Windows.Sum(Prices(ts, region, p))
    decreases |ts|
  {
    if ts != [] {
      var before, t := ts[..|ts| - 1], ts[|ts| - 1];
      SumAndCount(before, region, p);
      assert Applies(t, region, p) <==> StartsWithin(t, region, p);
      hide Applies, StartsWithin;
      OnePriceMore(Prices(before, region, p), t.price);
    }
  }

  lemma OnePriceMore(prices: seq<real>, price: real)
    ensures Windows.Sum(prices + [price]) == Windows.Sum(prices) + price && prices + [] == prices
  {
    assert (prices + [price])[..|prices|] == prices;
  }

  /** The average tariff, 6.5 without one. */
  ghost predicate IsRate(rate: real, prices: seq<real>) {
    if prices == [] then rate == 6.5 else Windows.MeanOf(rate, prices)
  }

  /** Consumption c at this rate, 18 % tax on top, each column rounded by itself. */
  ghost predicate ChargesAt(v: Invoice, c: real, rate: real) {
    && v.consumption == Hundredths(c) && v.baseCost == Hundredths(c * rate)
    && v.taxAmount == Hundredths(c * rate * 0.18) && v.totalCost == Hundredths(c * rate * 1.18)
  }

  /** The invoice charges its meter's consumption of month k at the average of the region's tariffs. */
  ghost predicate Charges(v: Invoice, rows: seq<Minute>, ts: seq<Tariff>, k: int, offset: int) {
    exists rate ::
      && IsRate(rate, Prices(ts, v.region, PeriodOf(k, offset)))
      && ChargesAt(v, Consumption(rows, v.meterId, k, offset), rate)
  }

  /** A new invoice: pending, neither paid nor disputed. */
  ghost predicate Issued(v: Invoice, region: string, k: int, offset: int) {
    && v.region == region && v.period == PeriodOf(k, offset) && v.status == Pending && v.paidAt.None?
    && v.paymentMethod.None? && v.paymentReference.None? && v.notes.None?
    && !v.isDisputed && v.disputedAt.None? && v.disputeReason.None?
  }

  lemma NewInvoiceCharges(id: string, userId: string, meterId: string, region: string, rows: seq<Minute>,
                          ts: seq<Tariff>, k: int, offset: int)
    ensures var u := MonthUsage(rows, ts, meterId, region, k, offset);
      var v := NewInvoice(id, userId, meterId, region, PeriodOf(k, offset), u);
      && v.id == id && v.userId == userId && v.meterId == meterId
      && Issued(v, region, k, offset) && Charges(v, rows, ts, k, offset)
  {
    hide Prices, Hundredths, Consumption, PeriodOf, PriceSum, PriceCount;
    var p, u := PeriodOf(k, offset), MonthUsage(rows, ts, meterId, region, k, offset);
    var rate := if u.avgRate.Some? then u.avgRate.value else 6.5;
    SumAndCount(ts, region, p);
    assert IsRate(rate, Prices(ts, region, p));
    var v := NewInvoice(id, userId, meterId, region, p, u);
    Columns(id, userId, meterId, region, p, u, rate);
    assert ChargesAt(v, Consumption(rows, v.meterId, k, offset), rate);
  }

  lemma Columns(id: string, userId: string, meterId: string, region: string, p: Period, u: Usage, rate: real)
    requires rate == if u.avgRate.Some? then u.avgRate.value else 6.5
    ensures ChargesAt(NewInvoice(id, userId, meterId, region, p, u), u.consumption, rate)
  {
    hide Hundredths;
    var base := u.consumption * rate;
    assert base == BaseCost(u) && base + base * 0.18 == base * 1.18;
  }

  // ---------------------------------------------------------------- bounds

  /** Every tariff of the region that is active and starts within the period costs between lo and hi. */
  ghost predicate PricedWithin(ts: seq<Tariff>, region: string, p: Period, lo: real, hi: real) {
    forall i :: 0 <= i < |ts| && ts[i].region == region && ts[i].active && p.start <= ts[i].effectiveFrom <= p.end ==>
      lo <= ts[i].price <= hi
  }

  /** There is such a tariff. */
  ghost predicate Priced(ts: seq<Tariff>, region: string, p: Period) {
    exists i :: 0 <= i < |ts| && ts[i].region == region && ts[i].active && p.start <= ts[i].effectiveFrom <= p.end
  }

  ghost predicate AllWithin(xs: seq<real>, lo: real, hi: real) {
    forall i :: 0 <= i < |xs| ==> lo <= xs[i] <= hi
  }

  lemma {:induction false} PricesWithin(ts: seq<Tariff>, region: string, p: Period, lo: real, hi: real)
    requires PricedWithin(ts, region, p, lo, hi)
    ensures AllWithin(Prices(ts, region, p), lo, hi)
    decreases |ts|
  {
    if ts != [] {
      PricesWithin(ts[..|ts| - 1], region, p, lo, hi);
    }
  }

  lemma {:induction false} PricesEmpty(ts: seq<Tariff>, region: string, p: Period)
    ensures Prices(ts, region, p) == [] <==> !Priced(ts, region, p)
    decreases |ts|
  {
    if ts != [] {
      var before := ts[..|ts| - 1];
      PricesEmpty(before, region, p);
      if Priced(before, region, p) {
        var i :| 0 <= i < |before| && before[i].region == region && before[i].active &&
                 p.start <= before[i].effectiveFrom <= p.end;
        assert ts[i] == before[i];
      } else {
        assert forall i :: 0 <= i < |before| ==> ts[i] == before[i];
      }
    }
  }

  lemma CostInOrder(c: real, low: real, high: real)
    requires 0.0 <= c && low <= high
    ensures Hundredths(c * low) <= Hundredths(c * high)
    ensures Hundredths(c * low * 0.18) <= Hundredths(c * high * 0.18)
    ensures Hundredths(c * low * 1.18) <= Hundredths(c * high * 1.18)
  {
    var less, more := c * low, c * high;
    assert 0.0 <= c * (high - low) == more - less;
    assert less * 0.18 <= more * 0.18 && less * 1.18 <= more * 1.18;
  }

  /** The charge of a consumption c lies between that at rate lo and that at rate hi, in every column. */
  ghost predicate ChargesBetween(v: Invoice, c: real, lo: real, hi: real) {
    && Hundredths(c * lo) <= v.baseCost <= Hundredths(c * hi)
    && Hundredths(c * lo * 0.18) <= v.taxAmount <= Hundredths(c * hi * 0.18)
    && Hundredths(c * lo * 1.18) <= v.totalCost <= Hundredths(c * hi * 1.18)
  }

  lemma RateWithin(rate: real, ts: seq<Tariff>, region: string, p: Period, lo: real, hi: real)
    requires IsRate(rate, Prices(ts, region, p)) && Priced(ts, region, p) && PricedWithin(ts, region, p, lo, hi)
    ensures lo <= rate <= hi
  {
    hide Prices, Priced, PricedWithin;
    var prices := Prices(ts, region, p);
    PricesEmpty(ts, region, p);
    PricesWithin(ts, region, p, lo, hi);
    Windows.MeanBetween(rate, prices, lo, hi);
  }

  /** Whatever the other rows are, a charge lies between those at the least and at the greatest tariff that is the
      region's, active and of the period; one price for all of these is the rate, and without any the rate is 6.5. */
  lemma ChargeIsOfTheTariffs(v: Invoice, rows: seq<Minute>, ts: seq<Tariff>, k: int, offset: int, lo: real, hi: real)
    requires Charges(v, rows, ts, k, offset)
    ensures var p, c := PeriodOf(k, offset), Consumption(rows, v.meterId, k, offset);
      && (!Priced(ts, v.region, p) ==> ChargesAt(v, c, 6.5))
      && (Priced(ts, v.region, p) && PricedWithin(ts, v.region, p, lo, hi) ==>
            (lo == hi ==> ChargesAt(v, c, lo)) && (0.0 <= c ==> ChargesBetween(v, c, lo, hi)))
  {
    hide Prices, Priced, PricedWithin, Hundredths, Consumption, PeriodOf;
    var p, c := PeriodOf(k, offset), Consumption(rows, v.meterId, k, offset);
    var rate :| IsRate(rate, Prices(ts, v.region, p)) && ChargesAt(v, c, rate);
    PricesEmpty(ts, v.region, p);
    if Priced(ts, v.region, p) && PricedWithin(ts, v.region, p, lo, hi) {
      RateWithin(rate, ts, v.region, p, lo, hi);
      if 0.0 <= c {
        ChargesInOrder(v, c, rate, lo, hi);
      }
    }
  }

  lemma ChargesInOrder(v: Invoice, c: real, rate: real, lo: real, hi: real)
    requires ChargesAt(v, c, rate) && 0.0 <= c && lo <= rate <= hi
    ensures ChargesBetween(v, c, lo, hi)
  {
    CostInOrder(c, lo, rate);
    CostInOrder(c, rate, hi);
  }

  // ---------------------------------------------------------------- a region's invoices

  /** The rows from position n on are new invoices of the region for month k, each charged by its own consumption. */
  ghost predicate AllCharged(vs: seq<Invoice>, n: nat, region: string, rows: seq<Minute>, ts: seq<Tariff>,
                             k: int, offset: int)
  {
    forall i :: n <= i < |vs| ==> Issued(vs[i], region, k, offset) && Charges(vs[i], rows, ts, k, offset)
  }
}

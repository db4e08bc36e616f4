// Tariff prices: the price a load dictates, and the calculator that only moves when it must.

module TariffCalculator {
  import opened Text

  // Prices are integers of 0.000001 rupees per kWh; a price of two decimals is a multiple of CENT.
  const CENT := 10000

  /** BASE_PRICE and MIN_CHANGE_THRESHOLD; the load thresholds are fixed by the configuration. */
  datatype Config = Config(base: int, minChange: int)

  predicate ValidConfig(c: Config) {
    c.base >= 0
  }

  /** getPriceMultiplier, in hundredths. */
  function Multiplier(load: real): int {
    if load > 90.0 then 125
    else if load > 75.0 then 110
    else if load > 50.0 then 100
    else if load > 25.0 then 90
    else 80
  }

  /** parseFloat((basePrice * multiplier).toFixed(2)): the nearest price of two decimals. */
  function Price(c: Config, load: real): (p: int)
    requires ValidConfig(c)
  {
    (c.base * Multiplier(load) + 50 * CENT) / (100 * CENT) * CENT
  }

  function Distance(a: int, b: int): int {
    if a <= b then b - a else a - b
  }

  /** The dictated price has two decimals and is within half a cent of base times multiplier. */
  lemma PriceIsNearest(c: Config, load: real)
    requires ValidConfig(c)
    ensures Price(c, load) >= 0 && Price(c, load) % CENT == 0
    ensures 2 * Distance(100 * Price(c, load), c.base * Multiplier(load)) <= 100 * CENT
  {
    var exact := c.base * Multiplier(load);
    var n := (exact + 500000) / 1000000;
    assert 1000000 * n <= exact + 500000 < 1000000 * n + 1000000;
    assert Price(c, load) == n * 10000;
  }

  /** p is the price of two decimals nearest to so many hundredths; halves go up. */
  ghost predicate NearestPrice(p: int, hundredths: int) {
    p % 10000 == 0 && -500000 < 100 * p - hundredths <= 500000
  }

  /** What each load band makes of the base price. */
  ghost predicate Dictates(base: int, load: real, p: int) {
    && (90.0 < load ==> NearestPrice(p, 125 * base))
    && (75.0 < load <= 90.0 ==> NearestPrice(p, 110 * base))
    && (50.0 < load <= 75.0 ==> NearestPrice(p, 100 * base))
    && (25.0 < load <= 50.0 ==> NearestPrice(p, 90 * base))
    && (load <= 25.0 ==> NearestPrice(p, 80 * base))
  }

  /** The bands leave one price for each load, and it is the dictated one. */
  lemma PriceOfBand(c: Config, load: real, p: int)
    requires ValidConfig(c)
    ensures Dictates(c.base, load, p) <==> p == Price(c, load)
  {
    var exact := c.base * Multiplier(load);
    assert Dictates(c.base, load, p) <==> NearestPrice(p, exact);
    Rounding(exact, p);
  }

  lemma Rounding(exact: int, p: int)
    ensures NearestPrice(p, exact) <==> p == (exact + 500000) / 1000000 * 10000
  {
    var n := (exact + 500000) / 1000000;
    assert 1000000 * n <= exact + 500000 < 1000000 * n + 1000000;
    if NearestPrice(p, exact) {
      var m := p / 10000;
      assert p == 10000 * m && 1000000 * m <= exact + 500000 < 1000000 * m + 1000000;
    }
  }

  lemma RoundMonotone(a: int, b: int)
    requires 0 <= a <= b
    ensures (a + 500000) / 1000000 <= (b + 500000) / 1000000
  {
  }

  /** A higher load never dictates a lower price. */
  lemma PriceMonotone(c: Config, low: real, high: real)
    requires ValidConfig(c) && low <= high
    ensures Price(c, low) <= Price(c, high)
  {
    RoundMonotone(c.base * Multiplier(low), c.base * Multiplier(high));
  }

  // ---------------------------------------------------------------- one aggregate

  datatype Aggregate = Aggregate(region: string, load: real, at: int)
  datatype Update = Update(region: string, price: int, oldPrice: int, at: int)

  type Prices = map<string, int>

  /** A stored price of 0 is falsy, so the base price stands in for it. */
  function OrBase(c: Config, price: Option<int>): int {
    if price.Some? && price.value != 0 then price.value else c.base
  }

  function Stored(last: Prices, region: string): Option<int> {
    if region in last then Some(last[region]) else None
  }

  /** getCurrentPrice */
  function Current(c: Config, last: Prices, region: string): int {
    OrBase(c, Stored(last, region))
  }

  function Calculate(c: Config, last: Prices, a: Aggregate): Option<Update>
    requires ValidConfig(c)
  {
    var price, previous := Price(c, a.load), Current(c, last, a.region);
    if Distance(price, previous) < c.minChange then None else Some(Update(a.region, price, previous, a.at))
  }

  function After(c: Config, last: Prices, a: Aggregate): Prices
    requires ValidConfig(c)
  {
    var u := Calculate(c, last, a);
    if u.Some? then last[a.region := u.value.price] else last
  }

  /** The region's price before an aggregate: the one held, the base price for none or 0. */
  ghost predicate HeldBefore(base: int, last: Prices, region: string, price: int) {
    if region in last && last[region] != 0 then price == last[region] else price == base
  }

  /** A price less than the threshold away from the one before is not published; any other is, and is held from then
      on. */
  ghost predicate Moves(c: Config, last: Prices, a: Aggregate, price: int, before: int, update: Option<Update>,
                        last': Prices)
  {
    if before - c.minChange < price < before + c.minChange then update == None && last' == last
    else update == Some(Update(a.region, price, before, a.at)) && last' == last[a.region := price]
  }

  /** What an aggregate publishes and leaves, from the base price, the load bands and the prices held. */
  ghost predicate Answers(c: Config, last: Prices, a: Aggregate, update: Option<Update>, last': Prices) {
    exists price, before ::
      && Dictates(c.base, a.load, price) && HeldBefore(c.base, last, a.region, before)
      && Moves(c, last, a, price, before, update, last')
  }

  lemma CalculateMeans(c: Config, last: Prices, a: Aggregate)
    requires ValidConfig(c)
    ensures Answers(c, last, a, Calculate(c, last, a), After(c, last, a))
  {
    hide Dictates, Price;
    var price, before := Price(c, a.load), Current(c, last, a.region);
    PriceOfBand(c, a.load, price);
    assert HeldBefore(c.base, last, a.region, before);
    assert Moves(c, last, a, price, before, Calculate(c, last, a), After(c, last, a));
  }

  /** The first load of a region, for a base price of 5 rupees: each band but the normal one publishes its price. */
  lemma FirstLoad(c: Config, last: Prices, a: Aggregate)
    requires c == Config(5000000, 10000) && a.region !in last
    ensures Calculate(c, last, a) ==
      if a.load > 90.0 then Some(Update(a.region, 6250000, 5000000, a.at))
      else if a.load > 75.0 then Some(Update(a.region, 5500000, 5000000, a.at))
      else if a.load > 50.0 then None
      else if a.load > 25.0 then Some(Update(a.region, 4500000, 5000000, a.at))
      else Some(Update(a.region, 4000000, 5000000, a.at))
  {
  }

  /** The held price is the dictated one, or closer to it than the change threshold. */
  predicate Close(c: Config, price: int, held: int) {
    price == held || Distance(price, held) < c.minChange
  }

  /** The aggregate makes the calculator store a price of 0, which the base price then hides. */
  predicate HidesZero(c: Config, last: Prices, a: Aggregate)
    requires ValidConfig(c)
  {
    && Price(c, a.load) == 0
    && c.base != 0 && c.base >= c.minChange
    && Current(c, last, a.region) >= c.minChange
  }

  /** Every stored price is at least 0, as the code only ever stores such prices. */
  predicate NonNegative(last: Prices) {
    forall r :: r in last ==> last[r] >= 0
  }

  /** After an aggregate the held price follows its load, except exactly when a zero price was hidden. */
  lemma HeldExact(c: Config, last: Prices, a: Aggregate)
    requires ValidConfig(c) && NonNegative(last)
    ensures Close(c, Price(c, a.load), Current(c, After(c, last, a), a.region)) <==> !HidesZero(c, last, a)
  {
    PriceIsNearest(c, a.load);
  }

  // ---------------------------------------------------------------- runs

  function Run(c: Config, last: Prices, history: seq<Aggregate>): Prices
    requires ValidConfig(c)
    decreases |history|
  {
    if history == [] then last
    else After(c, Run(c, last, history[..|history| - 1]), history[|history| - 1])
  }

  /** The published updates, in order. */
  function Log(c: Config, last: Prices, history: seq<Aggregate>): seq<Update>
    requires ValidConfig(c)
    decreases |history|
  {
    if history == [] then []
    else
      var before := history[..|history| - 1];
      var u := Calculate(c, Run(c, last, before), history[|history| - 1]);
      Log(c, last, before) + if u.Some? then [u.value] else []
  }

  /** The price of the region's last update in the log, else its price at the start. */
  function LastPrice(last: Prices, log: seq<Update>, region: string): Option<int> {
    if log == [] then Stored(last, region)
    else if log[|log| - 1].region == region then Some(log[|log| - 1].price)
    else LastPrice(last, log[..|log| - 1], region)
  }

  lemma LastPriceSnoc(last: Prices, log: seq<Update>, u: Update, region: string)
    ensures LastPrice(last, log + [u], region) ==
      if u.region == region then Some(u.price) else LastPrice(last, log, region)
  {
    assert (log + [u])[..|log|] == log;
  }

  lemma {:induction false} LastPriceIsStored(c: Config, last: Prices, history: seq<Aggregate>, region: string)
    requires ValidConfig(c)
    ensures LastPrice(last, Log(c, last, history), region) == Stored(Run(c, last, history), region)
    decreases |history|
  {
    hide LastPrice, Price, Current, Distance;
    if history == [] {
      NoUpdates(last, region);
    } else {
      var before, a := history[..|history| - 1], history[|history| - 1];
      LastPriceIsStored(c, last, before, region);
      var u := Calculate(c, Run(c, last, before), a);
      if u.Some? {
        LastPriceSnoc(last, Log(c, last, before), u.value, region);
      } else {
        assert Log(c, last, history) == Log(c, last, before);
      }
    }
  }

  lemma NoUpdates(last: Prices, region: string)
    ensures LastPrice(last, [], region) == Stored(last, region)
  {
  }

  /** The i-th update starts from the price the region had in the log before it, and moves it by the threshold. */
  predicate LinkedAt(c: Config, last: Prices, log: seq<Update>, i: nat)
    requires i < |log|
  {
    && log[i].oldPrice == OrBase(c, LastPrice(last, log[..i], log[i].region))
    && Distance(log[i].price, log[i].oldPrice) >= c.minChange
  }

  lemma {:induction false} EveryUpdateLinked(c: Config, last: Prices, history: seq<Aggregate>)
    requires ValidConfig(c)
    ensures forall i :: 0 <= i < |Log(c, last, history)| ==> LinkedAt(c, last, Log(c, last, history), i)
    decreases |history|
  {
    if history != [] {
      var before, a := history[..|history| - 1], history[|history| - 1];
      EveryUpdateLinked(c, last, before);
      LastPriceIsStored(c, last, before, a.region);
      var shorter, log := Log(c, last, before), Log(c, last, history);
      assert log[..|shorter|] == shorter;
      forall i | 0 <= i < |log| ensures LinkedAt(c, last, log, i) {
        if i < |shorter| {
          assert LinkedAt(c, last, shorter, i);
          assert log[..i] == shorter[..i];
        }
      }
    }
  }

  /** Updates i and j are consecutive updates of one region. */
  ghost predicate Consecutive(log: seq<Update>, i: nat, j: nat) {
    i < j < |log| && log[i].region == log[j].region && forall k :: i < k < j ==> log[k].region != log[j].region
  }

  lemma {:induction false} LastPriceIsPrevious(last: Prices, log: seq<Update>, i: nat, j: nat, region: string)
    requires i < j <= |log| && log[i].region == region && forall k :: i < k < j ==> log[k].region != region
    ensures LastPrice(last, log[..j], region) == Some(log[i].price)
    decreases j
  {
    assert log[..j][..j - 1] == log[..j - 1];
    if i < j - 1 {
      LastPriceIsPrevious(last, log, i, j - 1, region);
    }
  }

  /**
   * The updates of a region chain: each starts where the previous one ended, at least the threshold away.
   * The one break is an update to a price of 0 when the base price is not 0.
   */
  lemma ChainExact(c: Config, last: Prices, history: seq<Aggregate>, i: nat, j: nat)
    requires ValidConfig(c) && Consecutive(Log(c, last, history), i, j)
    ensures var log := Log(c, last, history);
      && (log[j].oldPrice == log[i].price <==> log[i].price != 0 || c.base == 0)
      && Distance(log[j].price, log[j].oldPrice) >= c.minChange
  {
    hide Log, Run;
    var log := Log(c, last, history);
    EveryUpdateLinked(c, last, history);
    assert LinkedAt(c, last, log, j);
    LastPriceIsPrevious(last, log, i, j, log[j].region);
  }

  lemma {:induction false} RunNonNegative(c: Config, last: Prices, history: seq<Aggregate>)
    requires ValidConfig(c) && NonNegative(last)
    ensures NonNegative(Run(c, last, history))
    decreases |history|
  {
    if history != [] {
      RunNonNegative(c, last, history[..|history| - 1]);
      PriceIsNearest(c, history[|history| - 1].load);
    }
  }

  /** Aggregate i is the region's last one. */
  ghost predicate LastOf(history: seq<Aggregate>, i: nat, region: string) {
    i < |history| && history[i].region == region && forall k :: i < k < |history| ==> history[k].region != region
  }

  /** At the end of any run, each region's held price follows the load of its last aggregate. */
  lemma {:induction false} HeldOverRuns(c: Config, last: Prices, history: seq<Aggregate>, i: nat, region: string)
    requires ValidConfig(c) && NonNegative(last) && LastOf(history, i, region)
    ensures Close(c, Price(c, history[i].load), Current(c, Run(c, last, history), region)) <==>
      !HidesZero(c, Run(c, last, history[..i]), history[i])
    decreases |history|
  {
    hide Price, HidesZero, Close;
    var before, a := history[..|history| - 1], history[|history| - 1];
    if i == |history| - 1 {
      RunNonNegative(c, last, before);
      HeldExact(c, Run(c, last, before), a);
    } else {
      HeldOverRuns(c, last, before, i, region);
      assert before[..i] == history[..i];
    }
  }

  /** From a base price of 0.00625 on no load dictates a price of zero, so nothing is hidden and no chain breaks. */
  lemma PricesArePositive(c: Config)
    requires ValidConfig(c)
    ensures (forall load: real :: Price(c, load) > 0) <==> c.base >= 6250
  {
    forall load: real ensures c.base >= 6250 ==> Price(c, load) > 0 {
    }
    if c.base < 6250 {
      assert Price(c, 0.0) == 0;
    }
  }

  /** A repeated load is settled: it publishes nothing more. */
  lemma Settled(c: Config, last: Prices, a: Aggregate, b: Aggregate)
    requires ValidConfig(c) && c.minChange > 0 && NonNegative(last)
    requires a.region == b.region && Price(c, a.load) == Price(c, b.load)
    ensures Calculate(c, After(c, last, a), b).None? <==> !HidesZero(c, last, a)
  {
    hide Price;
    PriceIsNearest(c, a.load);
  }

  /** A zero price published from a start price of 5 rupees: the next update does not start from it. */
  lemma ZeroBreaksTheChain(c: Config)
    requires c == Config(5000, 10000)
    ensures var history := [Aggregate("r", 10.0, 0), Aggregate("r", 95.0, 60)];
      Log(c, map["r" := 5000000], history) == [Update("r", 0, 5000000, 0)] &&
      Current(c, Run(c, map["r" := 5000000], history), "r") == 5000
  {
    var last: Prices := map["r" := 5000000];
    var a, b := Aggregate("r", 10.0, 0), Aggregate("r", 95.0, 60);
    assert [a, b][..1] == [a];
    assert [a][..0] == [];
    assert Price(c, 10.0) == 0;
    assert Price(c, 95.0) == 10000;
    assert Run(c, last, [a]) == map["r" := 0];
    assert Log(c, last, [a]) == [Update("r", 0, 5000000, 0)];
  }

  // ---------------------------------------------------------------- the service

  class TariffCalculatorService {
    const config: Config
    var lastPriceByRegion: Prices

    constructor (config: Config)
      requires ValidConfig(config)
      ensures this.config == config && lastPriceByRegion == map[]
    {
      this.config := config;
      lastPriceByRegion := map[];
    }

    /** calculateTariff */
    method CalculateTariff(a: Aggregate) returns (update: Option<Update>)
      requires ValidConfig(config)
      modifies this
      ensures update == Calculate(config, old(lastPriceByRegion), a)
      ensures lastPriceByRegion == After(config, old(lastPriceByRegion), a)
      ensures Answers(config, old(lastPriceByRegion), a, update, lastPriceByRegion)
    {
      hide Answers, Price;
      CalculateMeans(config, lastPriceByRegion, a);
      var newPrice := Price(config, a.load);
      var lastPrice := GetCurrentPrice(a.region);
      if Distance(newPrice, lastPrice) < config.minChange {
        return None;
      }
      update := Some(Update(a.region, newPrice, lastPrice, a.at));
      lastPriceByRegion := lastPriceByRegion[a.region := newPrice];
    }

    /** setLastPrice */
    method SetLastPrice(region: string, price: int)
      modifies this
      ensures lastPriceByRegion == old(lastPriceByRegion)[region := price]
    {
      lastPriceByRegion := lastPriceByRegion[region := price];
    }

    /** getCurrentPrice */
    method GetCurrentPrice(region: string) returns (price: int)
      ensures price == Current(config, lastPriceByRegion, region)
      ensures HeldBefore(config.base, lastPriceByRegion, region, price)
    {
      var held := region in lastPriceByRegion && lastPriceByRegion[region] != 0;
      price := if held then lastPriceByRegion[region] else config.base;
    }
  }
}

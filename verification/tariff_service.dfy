// The tariff service: automatic updates, operator overrides and their removal, over the table and the cache.

module TariffService {
  import opened Text
  import opened TariffCalculator
  import Cache = TariffCache

  type Row = Cache.Row

  /** The white space String.prototype.trim removes. */
  predicate IsSpace(c: char) {
    || '\U{0009}' <= c <= '\U{000D}' || c == ' ' || c == '\U{00A0}' || c == '\U{1680}'
    || '\U{2000}' <= c <= '\U{200A}' || c == '\U{2028}' || c == '\U{2029}' || c == '\U{202F}'
    || c == '\U{205F}' || c == '\U{3000}' || c == '\U{FEFF}'
  }

  /** The code points that ECMAScript counts as white space or line terminators. */
  lemma SpaceCodes(c: char)
    ensures IsSpace(c) <==>
      var n := c as int;
      n in {9, 10, 11, 12, 13, 32, 160, 5760, 8232, 8233, 8239, 8287, 12288, 65279} || 8192 <= n <= 8202
  {
  }

  /** The first position from i on that is not white space. */
  function SkipSpace(s: string, i: nat): (k: nat)
    requires i <= |s|
    ensures i <= k <= |s| && (k < |s| ==> !IsSpace(s[k])) && forall j :: i <= j < k ==> IsSpace(s[j])
    decreases |s| - i
  {
    if i < |s| && IsSpace(s[i]) then SkipSpace(s, i + 1) else i
  }

  datatype Validity = Valid | RegionRequired | PriceNotPositive | PriceOutOfRange

  /** validateRequest */
  function ValidateRequest(region: string, newPrice: int): (v: Validity)
    ensures v.RegionRequired? <==> forall i :: 0 <= i < |region| ==> IsSpace(region[i])
    ensures v.Valid? ==> 500000 <= newPrice <= 20000000
    ensures v.PriceNotPositive? <==> newPrice <= 0 && !v.RegionRequired?
    ensures v.PriceOutOfRange? ==> 0 < newPrice && (newPrice < 500000 || newPrice > 20000000)
  {
    if SkipSpace(region, 0) == |region| then RegionRequired
    else if newPrice <= 0 then PriceNotPositive
    else if newPrice < 500000 || newPrice > 20000000 then PriceOutOfRange
    else Valid
  }

  /** Automatic prices have two decimals, so the table column keeps them as they are. */
  lemma AutomaticPricesFit(c: Config, last: Prices, a: Aggregate)
    requires ValidConfig(c) && Calculate(c, last, a).Some?
    ensures var price := Calculate(c, last, a).value.price;
      price >= 0 && price % 100 == 0 && Cache.ToColumn(price) == price
  {
    PriceIsNearest(c, a.load);
    var n := Price(c, a.load) / CENT;
    assert Price(c, a.load) == 10000 * n == 100 * (100 * n);
  }

  /** After an automatic price the calculator publishes nothing more for loads of the same band. */
  lemma SteadyLoad(c: Config, last: Prices, a: Aggregate, b: Aggregate)
    requires ValidConfig(c) && c.minChange > 0 && NonNegative(last) && c.base >= 6250
    requires a.region == b.region && Multiplier(a.load) == Multiplier(b.load)
    ensures Calculate(c, After(c, last, a), b).None?
  {
    hide Price;
    PricesArePositive(c);
    assert Price(c, a.load) > 0;
    assert Price(c, b.load) == Price(c, a.load) by { SamePrice(c, a.load, b.load); }
    Settled(c, last, a, b);
  }

  lemma SamePrice(c: Config, x: real, y: real)
    requires ValidConfig(c) && Multiplier(x) == Multiplier(y)
    ensures Price(c, x) == Price(c, y)
  {
  }

  // ---------------------------------------------------------------- automatic prices after an override

  /** The prices of the calculator, the table and the cache. */
  datatype Tariffs = Tariffs(last: Prices, table: Cache.State)

  /** An aggregate, the id its row would get, and how long after the call before it is handled. */
  datatype Load = Load(aggregate: Aggregate, id: string, wait: nat)

  /** handleAggregate, with nothing failing. */
  function Handled(c: Config, s: Tariffs, x: Load): Tariffs
    requires ValidConfig(c)
  {
    var t, u := Cache.Step(s.table, Cache.Advance(x.wait)), Calculate(c, s.last, x.aggregate);
    Tariffs(After(c, s.last, x.aggregate),
            if u.None? then t
            else Cache.Step(t, Cache.Insert(x.id, x.aggregate.region, u.value.price, x.aggregate.at, true)))
  }

  function HandledAll(c: Config, s: Tariffs, loads: seq<Load>): Tariffs
    requires ValidConfig(c)
    decreases |loads|
  {
    if loads == [] then s else Handled(c, HandledAll(c, s, loads[..|loads| - 1]), loads[|loads| - 1])
  }

  function Waited(loads: seq<Load>): nat {
    if loads == [] then 0 else Waited(loads[..|loads| - 1]) + loads[|loads| - 1].wait
  }

  /** An operator's override, with nothing failing. */
  function Overridden(s: Tariffs, region: string, price: int, id: string): Tariffs {
    s.(table := Cache.Step(s.table, Cache.Insert(id, region, price, s.table.now, true)))
  }

  /** Aggregates of the region stay in one load band. */
  ghost predicate SameBand(loads: seq<Load>, region: string, multiplier: int) {
    forall i :: 0 <= i < |loads| && loads[i].aggregate.region == region ==>
      Multiplier(loads[i].aggregate.load) == multiplier
  }

  lemma {:induction false} EntryStands(c: Config, s: Tariffs, a: Aggregate, loads: seq<Load>)
    requires ValidConfig(c) && Calculate(c, s.last, a).None? && SameBand(loads, a.region, Multiplier(a.load))
    requires a.region in s.table.cache
    ensures var s' := HandledAll(c, s, loads);
      && a.region in s'.table.cache && s'.table.cache[a.region] == s.table.cache[a.region]
      && s'.table.now == s.table.now + Waited(loads) && Calculate(c, s'.last, a).None?
    decreases |loads|
  {
    hide Price, Multiplier;
    if loads != [] {
      var n := |loads| - 1;
      EntryStands(c, s, a, loads[..n]);
      if loads[n].aggregate.region == a.region {
        SamePrice(c, a.load, loads[n].aggregate.load);
      }
    }
  }

  /** An override answers for the region until its cache entry expires, whatever aggregates follow, as long as those of
      the region stay in the load band of the automatic price before it. */
  lemma SteadyLoadLeavesOverride(c: Config, s: Tariffs, x: Load, price: int, id: string, loads: seq<Load>,
                                 pick: Option<Row>)
    requires ValidConfig(c) && c.minChange > 0 && NonNegative(s.last) && c.base >= 6250
    requires SameBand(loads, x.aggregate.region, Multiplier(x.aggregate.load)) && Waited(loads) < Cache.TTL
    ensures var region := x.aggregate.region;
      var s' := HandledAll(c, Overridden(Handled(c, s, x), region, price, id), loads);
      Cache.Answer(s'.table, region, pick) == Some(price)
  {
    hide Price, Multiplier, SameBand, HandledAll, Waited;
    SteadyLoad(c, s.last, x.aggregate, x.aggregate);
    EntryStands(c, Overridden(Handled(c, s, x), x.aggregate.region, price, id), x.aggregate, loads);
  }

  datatype Response =
    | Applied(region: string, newPrice: int, oldPrice: Option<int>)
    | Rejected(validity: Validity)
    | InternalError
    | NotFound
    | Removed(region: string, removedPrice: int, revertedTo: Option<int>)

  /** Where a call to the database, the cache or the broker throws, if any does: before the table changes, between that
      change and the cache write, or at the publish. */
  datatype Trouble = Smooth | BeforeChange | BeforeCache | AtPublish

  /** oldPrice || undefined: a cached price of 0 is shown as none. */
  function Shown(s: Cache.State, region: string): Option<int> {
    if Cache.Live(s, region) && s.cache[region].price != 0 then Some(s.cache[region].price) else None
  }

  /** The tariffs table and the cache as the two services see them; ids and times are given by the caller. */
  class OverrideHandlerService {
    var rows: seq<Row>
    var cache: map<string, Cache.Entry>

    ghost function At(now: int): Cache.State
      reads this
    {
      Cache.State(rows, cache, now)
    }

    /** getTariff of the cache */
    method GetTariff(region: string, now: int) returns (price: Option<int>)
      ensures price == if Cache.Live(At(now), region) then Some(cache[region].price) else None
    {
      if region in cache && now < cache[region].expiry {
        return Some(cache[region].price);
      }
      return None;
    }

    /** getCurrentTariff of the table */
    method Latest(region: string) returns (row: Option<Row>)
      ensures Cache.PickFrom(rows, region, row)
    {
      row := None;
      for i := 0 to |rows|
        invariant Cache.PickFrom(rows[..i], region, row)
      {
        assert rows[..i + 1] == rows[..i] + [rows[i]];
        if rows[i].region == region && (row.None? || rows[i].at > row.value.at) {
          row := Some(rows[i]);
        }
      }
      assert rows[..|rows|] == rows;
    }

    /** getAllCurrentTariffs */
    method AllLatest() returns (picks: map<string, Row>)
      ensures Cache.PicksLatest(rows, picks)
    {
      picks := map[];
      for i := 0 to |rows|
        invariant Cache.PicksLatest(rows[..i], picks)
      {
        var row := rows[i];
        Cache.PickNext(rows, i, picks);
        if row.region !in picks || row.at > picks[row.region].at {
          picks := picks[row.region := row];
        }
      }
      assert rows[..|rows|] == rows;
    }

    /** initializeServices: read the current tariffs, cache them all, and set them in the new calculator; afterwards
        calculator and cache hold the same price for every region that has rows. */
    method StartUp(calculator: TariffCalculatorService, now: int) returns (ghost picks: map<string, Row>)
      modifies this, calculator
      ensures Cache.PicksLatest(rows, picks)
      ensures At(now) == Cache.Preloaded(old(At(now)), picks)
      ensures forall region :: region in picks ==>
        && Cache.Live(At(now), region) && region in calculator.lastPriceByRegion
        && calculator.lastPriceByRegion[region] == cache[region].price == picks[region].price
      ensures forall region :: region !in picks ==>
        (region in calculator.lastPriceByRegion <==> region in old(calculator.lastPriceByRegion)) &&
        (region in calculator.lastPriceByRegion ==>
          calculator.lastPriceByRegion[region] == old(calculator.lastPriceByRegion)[region])
    {
      hide Cache.PicksLatest;
      var latest := AllLatest();
      picks := latest;
      PreloadTariffs(latest, now);
      var todo := latest.Keys;
      while todo != {}
        invariant At(now) == Cache.Preloaded(old(At(now)), picks) && rows == old(rows) && todo <= latest.Keys
        invariant forall region :: region in latest && region !in todo ==>
          region in calculator.lastPriceByRegion && calculator.lastPriceByRegion[region] == latest[region].price
        invariant forall region :: region !in latest ==>
          (region in calculator.lastPriceByRegion <==> region in old(calculator.lastPriceByRegion)) &&
          (region in calculator.lastPriceByRegion ==>
            calculator.lastPriceByRegion[region] == old(calculator.lastPriceByRegion)[region])
        decreases |todo|
      {
        var region :| region in todo;
        calculator.SetLastPrice(region, latest[region].price);
        todo := todo - {region};
      }
    }

    /** preloadTariffs */
    method PreloadTariffs(latest: map<string, Row>, now: int)
      modifies this
      ensures At(now) == Cache.Preloaded(old(At(now)), latest)
    {
      hide Cache.Preloaded;
      ghost var before, done := At(now), map[];
      Cache.PreloadNone(before);
      var todo := latest.Keys;
      while todo != {}
        invariant rows == before.rows && todo <= latest.Keys && done == latest - todo
        invariant At(now) == Cache.Preloaded(before, done)
        decreases |todo|
      {
        var region :| region in todo;
        Cache.PreloadOne(before, done, region, latest[region]);
        cache := cache[region := Cache.Entry(latest[region].price, now + Cache.TTL)];
        todo := todo - {region};
        done := done[region := latest[region]];
      }
      assert done == latest;
    }

    /** handleOverride: whatever fails after the insert, the row stays and the caller is told of an internal error. */
    method HandleOverride(region: string, newPrice: int, id: string, now: int, trouble: Trouble) returns (r: Response)
      modifies this
      ensures var validity := ValidateRequest(region, newPrice);
        if !validity.Valid? then
          At(now) == old(At(now)) && r == Rejected(validity)
        else if trouble.BeforeChange? then
          At(now) == old(At(now)) && r == InternalError
        else
          && At(now) == Cache.Step(old(At(now)), Cache.Insert(id, region, newPrice, now, !trouble.BeforeCache?))
          && r == if trouble.Smooth? then Applied(region, newPrice, Shown(old(At(now)), region)) else InternalError
      ensures r.Applied? ==>
        && rows == old(rows) + [Cache.Row(id, region, rows[|old(rows)|].price, now)]
        && rows[|old(rows)|].price % 100 == 0 && -50 < rows[|old(rows)|].price - newPrice <= 50
        && cache == old(cache)[region := Cache.Entry(newPrice, now + 86400000)]
        && (if region in old(cache) && now < old(cache)[region].expiry && old(cache)[region].price != 0
            then r.oldPrice == Some(old(cache)[region].price) else r.oldPrice.None?)
    {
      Cache.ColumnIsNearest(newPrice);
      var validity := ValidateRequest(region, newPrice);
      if !validity.Valid? {
        return Rejected(validity);
      }
      if trouble.BeforeChange? {
        return InternalError;
      }
      var oldPrice := GetTariff(region, now);
      rows := rows + [Cache.Row(id, region, Cache.ToColumn(newPrice), now)];
      if trouble.BeforeCache? {
        return InternalError;
      }
      cache := cache[region := Cache.Entry(newPrice, now + Cache.TTL)];
      if trouble.AtPublish? {
        return InternalError;
      }
      r := Applied(region, newPrice, if oldPrice == Some(0) then None else oldPrice);
    }

    /** getCurrentTariff */
    method GetCurrentTariff(region: string, now: int) returns (price: Option<int>, ghost pick: Option<Row>)
      modifies this
      ensures Cache.Asked(old(At(now)), region, pick)
      ensures price == Cache.Answer(old(At(now)), region, pick)
      ensures At(now) == Cache.Step(old(At(now)), Cache.Read(region, pick))
    {
      price := GetTariff(region, now);
      pick := None;
      if price.None? {
        var row := Latest(region);
        pick := row;
        if row.Some? {
          price := Some(row.value.price);
          cache := cache[region := Cache.Entry(row.value.price, now + Cache.TTL)];
        }
      }
    }

    /** removeOverride: any tariff id is accepted, not only those of overrides. Nothing is cached or published when no
        row of the region remains; BeforeCache then stands for a failing second query. */
    method RemoveOverride(id: string, now: int, trouble: Trouble) returns (r: Response, ghost pick: Option<Row>)
      modifies this
      ensures trouble.BeforeChange? ==> At(now) == old(At(now)) && r == InternalError
      ensures !trouble.BeforeChange? ==>
        && At(now) == Cache.Step(old(At(now)), Cache.Remove(id, pick, !trouble.BeforeCache?))
        && Cache.Enabled(old(At(now)), Cache.Remove(id, pick, !trouble.BeforeCache?))
        && (r.NotFound? <==> forall row :: row in old(rows) ==> row.id != id)
      ensures !trouble.BeforeChange? && !r.NotFound? ==>
        var row := Cache.ById(old(rows), id).value;
        r == if trouble.BeforeCache? || (trouble.AtPublish? && pick.Some?) then InternalError
             else Removed(row.region, row.price, if pick.Some? then Some(pick.value.price) else None)
    {
      pick := None;
      if trouble.BeforeChange? {
        return InternalError, None;
      }
      var tariff := Cache.ById(rows, id);
      if tariff.None? {
        return NotFound, None;
      }
      var region := tariff.value.region;
      rows := Cache.WithoutId(rows, id);
      var latest := Latest(region);
      pick := latest;
      if trouble.BeforeCache? {
        return InternalError, pick;
      }
      if latest.Some? {
        cache := cache[region := Cache.Entry(latest.value.price, now + Cache.TTL)];
        if trouble.AtPublish? {
          return InternalError, pick;
        }
      }
      r := Removed(region, tariff.value.price, if latest.Some? then Some(latest.value.price) else None);
    }

    /** handleAggregate: calculate, insert, cache, publish; errors are logged. Whatever fails, the calculator has
        moved. */
    method HandleAggregate(calculator: TariffCalculatorService, a: Aggregate, id: string, now: int, trouble: Trouble)
      returns (update: Option<Update>)
      requires ValidConfig(calculator.config)
      modifies this, calculator
      ensures update == Calculate(calculator.config, old(calculator.lastPriceByRegion), a)
      ensures calculator.lastPriceByRegion == After(calculator.config, old(calculator.lastPriceByRegion), a)
      ensures trouble.Smooth? ==>
        Tariffs(calculator.lastPriceByRegion, At(now)) ==
        Handled(calculator.config, Tariffs(old(calculator.lastPriceByRegion), old(At(now))), Load(a, id, 0))
      ensures update.None? || trouble.BeforeChange? ==> At(now) == old(At(now))
      ensures update.Some? && !trouble.BeforeChange? ==>
        At(now) == Cache.Step(old(At(now)), Cache.Insert(id, a.region, update.value.price, a.at, !trouble.BeforeCache?))
      ensures Answers(calculator.config, old(calculator.lastPriceByRegion), a, update, calculator.lastPriceByRegion)
      ensures trouble.Smooth? && update.Some? ==>
        && rows == old(rows) + [Cache.Row(id, a.region, update.value.price, a.at)]
        && cache == old(cache)[a.region := Cache.Entry(update.value.price, now + 86400000)]
    {
      if Calculate(calculator.config, calculator.lastPriceByRegion, a).Some? {
        AutomaticPricesFit(calculator.config, calculator.lastPriceByRegion, a);
      }
      hide Answers, Price;
      update := calculator.CalculateTariff(a);
      if update.None? || trouble.BeforeChange? {
        return;
      }
      rows := rows + [Cache.Row(id, a.region, Cache.ToColumn(update.value.price), update.value.at)];
      if !trouble.BeforeCache? {
        cache := cache[a.region := Cache.Entry(update.value.price, now + Cache.TTL)];
      }
    }
  }
}

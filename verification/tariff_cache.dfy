// The tariff table and its Redis cache: when the cached price is the one of the row in force.

module TariffCache {
  import opened Text

  /** 86400 seconds, in milliseconds. */
  const TTL := 86400000

  datatype Row = Row(id: string, region: string, price: int, at: int)
  datatype Entry = Entry(price: int, expiry: int)

  /** The tariffs table, the `tariff:<region>` keys of the cache, and the clock. */
  datatype State = State(rows: seq<Row>, cache: map<string, Entry>, now: int)

  /** What a DECIMAL(10, 4) column keeps of a price given in millionths. */
  function ToColumn(price: int): int {
    (price + 50) / 100 * 100
  }

  /** The column keeps the nearest price of four decimals, halves upwards. */
  lemma ColumnIsNearest(price: int)
    ensures ToColumn(price) % 100 == 0 && -50 < ToColumn(price) - price <= 50
  {
    var n := (price + 50) / 100;
    assert 100 * n <= price + 50 < 100 * n + 100;
  }

  /** Rows the database may return for ORDER BY effective_from DESC LIMIT 1. */
  ghost predicate IsLatest(rows: seq<Row>, region: string, row: Row) {
    && row in rows && row.region == region
    && forall r :: r in rows && r.region == region ==> r.at <= row.at
  }

  ghost predicate AnyRow(rows: seq<Row>, region: string) {
    exists r :: r in rows && r.region == region
  }

  /** The price is the one in force: the region has rows, and every latest one has this price. */
  ghost predicate InForce(rows: seq<Row>, region: string, price: int) {
    && (exists row :: IsLatest(rows, region, row))
    && forall row :: IsLatest(rows, region, row) ==> row.price == price
  }

  predicate Live(s: State, region: string) {
    region in s.cache && s.now < s.cache[region].expiry
  }

  ghost predicate CoherentAt(s: State, region: string) {
    Live(s, region) ==> InForce(s.rows, region, s.cache[region].price)
  }

  ghost predicate Coherent(s: State) {
    forall region :: region in s.cache ==> CoherentAt(s, region)
  }

  // ---------------------------------------------------------------- steps

  /** pick is the row the database returned, if it was asked and had one; cached says whether the call got as far
      as writing the cache, or failed after its change to the table. */
  datatype Event =
    | Insert(id: string, region: string, price: int, at: int, cached: bool)
    | Remove(id: string, pick: Option<Row>, cached: bool)
    | Read(region: string, pick: Option<Row>)
    | Advance(ms: nat)

  function WithoutId(rows: seq<Row>, id: string): seq<Row> {
    if rows == [] then []
    else WithoutId(rows[..|rows| - 1], id) + if rows[|rows| - 1].id == id then [] else [rows[|rows| - 1]]
  }

  /** getTariffById */
  function ById(rows: seq<Row>, id: string): (row: Option<Row>)
    ensures row.Some? ==> row.value in rows && row.value.id == id
    ensures row.None? ==> forall r :: r in rows ==> r.id != id
  {
    if rows == [] then None else if rows[0].id == id then Some(rows[0]) else ById(rows[1..], id)
  }

  /** setTariff */
  function Cached(s: State, region: string, price: int): State {
    s.(cache := s.cache[region := Entry(price, s.now + TTL)])
  }

  function Step(s: State, e: Event): State {
    match e
    case Insert(id, region, price, at, cached) =>
      var s' := s.(rows := s.rows + [Row(id, region, ToColumn(price), at)]);
      if cached then Cached(s', region, price) else s'
    case Remove(id, pick, cached) =>
      var row := ById(s.rows, id);
      if row.None? then s
      else
        var s' := s.(rows := WithoutId(s.rows, id));
        if pick.Some? && cached then Cached(s', row.value.region, pick.value.price) else s'
    case Read(region, pick) =>
      if Live(s, region) || pick.None? then s else Cached(s, region, pick.value.price)
    case Advance(ms) => s.(now := s.now + ms)
  }

  /** The answer of getCurrentTariff. */
  function Answer(s: State, region: string, pick: Option<Row>): Option<int> {
    if Live(s, region) then Some(s.cache[region].price) else if pick.Some? then Some(pick.value.price) else None
  }

  ghost predicate PickFrom(rows: seq<Row>, region: string, pick: Option<Row>) {
    if pick.Some? then IsLatest(rows, region, pick.value) else !AnyRow(rows, region)
  }

  /** A live cache entry is returned without asking the database. */
  ghost predicate Asked(s: State, region: string, pick: Option<Row>) {
    Live(s, region) || PickFrom(s.rows, region, pick)
  }

  /** Prices are not negative, ids are new, and the database answers truly. */
  ghost predicate Enabled(s: State, e: Event) {
    match e
    case Insert(id, region, price, at, _) => price >= 0 && forall r :: r in s.rows ==> r.id != id
    case Remove(id, pick, _) =>
      ById(s.rows, id).Some? ==> PickFrom(WithoutId(s.rows, id), ById(s.rows, id).value.region, pick)
    case Read(region, pick) => Asked(s, region, pick)
    case Advance(_) => true
  }

  /** No later row is in the table with another price, and the price survives the column when its row is the latest. */
  ghost predicate GoodInsert(rows: seq<Row>, region: string, price: int, at: int) {
    && (forall row :: IsLatest(rows, region, row) && row.at >= at ==> row.price == price)
    && ((forall row :: row in rows && row.region == region ==> row.at <= at) ==> price % 100 == 0)
  }

  ghost predicate TiesAgree(rows: seq<Row>, region: string, price: int) {
    forall row :: IsLatest(rows, region, row) ==> row.price == price
  }

  /** Without a cache write the entry must already hold the new row's price, or the row must not be a latest one. */
  ghost predicate GoodUncached(s: State, region: string, price: int, at: int) {
    Live(s, region) ==>
      ToColumn(price) == s.cache[region].price || exists row :: row in s.rows && row.region == region && row.at > at
  }

  ghost predicate Good(s: State, e: Event) {
    match e
    case Insert(_, region, price, at, cached) =>
      if cached then GoodInsert(s.rows, region, price, at) else GoodUncached(s, region, price, at)
    case Remove(id, pick, cached) =>
      var row := ById(s.rows, id);
      row.Some? ==>
        if pick.Some? && cached then TiesAgree(WithoutId(s.rows, id), row.value.region, pick.value.price)
        else Live(s, row.value.region) ==>
          pick.Some? && TiesAgree(WithoutId(s.rows, id), row.value.region, s.cache[row.value.region].price)
    case Read(region, pick) => Live(s, region) || pick.None? || TiesAgree(s.rows, region, pick.value.price)
    case Advance(_) => true
  }

  /** tariff_id is the primary key. */
  ghost predicate Keyed(rows: seq<Row>) {
    forall a, b :: a in rows && b in rows && a.id == b.id ==> a == b
  }

  lemma {:induction false} WithoutIdMeaning(rows: seq<Row>, id: string, r: Row)
    ensures r in WithoutId(rows, id) <==> r in rows && r.id != id
  {
    if rows != [] {
      WithoutIdMeaning(rows[..|rows| - 1], id, r);
      assert rows == rows[..|rows| - 1] + [rows[|rows| - 1]];
    }
  }

  /** Tables with the same rows of a region have the same latest rows of it. */
  lemma SameLatest(a: seq<Row>, b: seq<Row>, region: string, price: int)
    requires forall r: Row :: r.region == region ==> (r in a <==> r in b)
    ensures InForce(a, region, price) <==> InForce(b, region, price)
  {
    assert forall row :: IsLatest(a, region, row) <==> IsLatest(b, region, row);
  }

  lemma {:induction false} LatestExists(rows: seq<Row>, region: string) returns (row: Row)
    requires AnyRow(rows, region)
    ensures IsLatest(rows, region, row)
    decreases |rows|
  {
    var before, last := rows[..|rows| - 1], rows[|rows| - 1];
    assert rows == before + [last];
    if AnyRow(before, region) {
      row := LatestExists(before, region);
      if last.region == region && last.at > row.at {
        row := last;
      }
    } else {
      row := last;
      assert forall r :: r in before ==> r.region != region;
    }
  }

  lemma NewestInForce(rows: seq<Row>, row: Row, price: int)
    requires forall r :: r in rows && r.region == row.region ==> r.at <= row.at
    ensures InForce(rows + [row], row.region, price) <==>
      row.price == price && forall r :: IsLatest(rows, row.region, r) && r.at >= row.at ==> r.price == price
  {
    var rows' := rows + [row];
    assert forall r :: r in rows' <==> r in rows || r == row;
    assert IsLatest(rows', row.region, row);
    forall r | IsLatest(rows', row.region, r) ensures r == row || (IsLatest(rows, row.region, r) && r.at >= row.at) {
    }
    forall r | IsLatest(rows, row.region, r) && r.at >= row.at ensures IsLatest(rows', row.region, r) {
    }
  }

  lemma OlderInForce(rows: seq<Row>, row: Row, late: Row, price: int)
    requires late in rows && late.region == row.region && late.at > row.at
    ensures InForce(rows + [row], row.region, price) <==>
      forall r :: IsLatest(rows, row.region, r) && r.at >= row.at ==> r.price == price
  {
    var rows' := rows + [row];
    assert forall r :: r in rows' <==> r in rows || r == row;
    forall r ensures IsLatest(rows', row.region, r) <==> IsLatest(rows, row.region, r) {
    }
    var top := LatestExists(rows, row.region);
    assert IsLatest(rows', row.region, top);
  }

  lemma InsertInForce(rows: seq<Row>, id: string, region: string, price: int, at: int)
    requires price >= 0
    ensures InForce(rows + [Row(id, region, ToColumn(price), at)], region, price) <==>
      GoodInsert(rows, region, price, at)
  {
    hide InForce, IsLatest;
    var row := Row(id, region, ToColumn(price), at);
    if forall r :: r in rows && r.region == region ==> r.at <= at {
      NewestInForce(rows, row, price);
    } else {
      var late :| late in rows && late.region == region && late.at > at;
      OlderInForce(rows, row, late, price);
    }
  }

  lemma OtherRegions(s: State, s': State, region: string)
    requires Coherent(s)
    requires forall r: Row :: r.region != region ==> (r in s.rows <==> r in s'.rows)
    requires forall g :: g != region ==> (g in s'.cache <==> g in s.cache)
    requires forall g :: g != region && g in s.cache ==> s'.cache[g] == s.cache[g]
    requires s.now <= s'.now
    ensures Coherent(s') <==> CoherentAt(s', region)
  {
    forall g | g in s'.cache && g != region ensures CoherentAt(s', g) {
      if Live(s', g) {
        assert CoherentAt(s, g);
        SameLatest(s.rows, s'.rows, g, s.cache[g].price);
      }
    }
  }

  lemma UncachedInForce(s: State, id: string, region: string, price: int, at: int)
    requires CoherentAt(s, region)
    ensures var s' := s.(rows := s.rows + [Row(id, region, ToColumn(price), at)]);
      CoherentAt(s', region) <==> GoodUncached(s, region, price, at)
  {
    hide InForce;
    var row := Row(id, region, ToColumn(price), at);
    if Live(s, region) {
      var held := s.cache[region].price;
      AllLatest(s.rows, region, held);
      if late :| late in s.rows && late.region == region && late.at > at {
        OlderInForce(s.rows, row, late, held);
      } else {
        NewestInForce(s.rows, row, held);
      }
    }
  }

  lemma AllLatest(rows: seq<Row>, region: string, price: int)
    requires InForce(rows, region, price)
    ensures forall row :: IsLatest(rows, region, row) ==> row.price == price
  {
  }

  lemma InsertExact(s: State, e: Event)
    requires Coherent(s) && e.Insert? && Enabled(s, e)
    ensures Coherent(Step(s, e)) <==> Good(s, e)
  {
    hide InForce, GoodInsert, GoodUncached;
    OtherRegions(s, Step(s, e), e.region);
    if e.cached {
      InsertInForce(s.rows, e.id, e.region, e.price, e.at);
    } else {
      UncachedInForce(s, e.id, e.region, e.price, e.at);
    }
  }

  lemma RemoveExact(s: State, e: Event)
    requires Coherent(s) && e.Remove? && Enabled(s, e) && Keyed(s.rows)
    ensures Coherent(Step(s, e)) <==> Good(s, e)
  {
    hide Coherent, Good, PickFrom, Step;
    if ById(s.rows, e.id).None? {
      RemoveMissing(s, e);
      return;
    }
    var region := ById(s.rows, e.id).value.region;
    var rows' := WithoutId(s.rows, e.id);
    forall r ensures r in rows' <==> r in s.rows && r.id != e.id {
      WithoutIdMeaning(s.rows, e.id, r);
    }
    RemoveOthers(s, e, region);
  }

  lemma RemoveMissing(s: State, e: Event)
    requires Coherent(s) && e.Remove? && ById(s.rows, e.id).None?
    ensures Coherent(Step(s, e)) && Good(s, e)
  {
  }

  lemma RemoveOthers(s: State, e: Event, region: string)
    requires Coherent(s) && e.Remove? && Enabled(s, e)
    requires ById(s.rows, e.id).Some? && region == ById(s.rows, e.id).value.region
    requires forall r: Row :: r.region != region ==> (r in WithoutId(s.rows, e.id) <==> r in s.rows)
    ensures Coherent(Step(s, e)) <==> Good(s, e)
  {
    OtherRegions(s, Step(s, e), region);
  }

  lemma ReadExact(s: State, e: Event)
    requires Coherent(s) && e.Read? && Enabled(s, e)
    ensures Coherent(Step(s, e)) <==> Good(s, e)
  {
    OtherRegions(s, Step(s, e), e.region);
  }

  /** One step keeps the cache coherent exactly when it is a good one. */
  lemma StepExact(s: State, e: Event)
    requires Coherent(s) && Keyed(s.rows) && Enabled(s, e)
    ensures Coherent(Step(s, e)) <==> Good(s, e)
    ensures Keyed(Step(s, e).rows)
  {
    StepKeyed(s, e);
    hide Keyed;
    match e
    case Insert(_, _, _, _, _) => InsertExact(s, e);
    case Remove(_, _, _) => RemoveExact(s, e);
    case Read(_, _) => ReadExact(s, e);
    case Advance(_) =>
      assert forall region :: Live(Step(s, e), region) ==> Live(s, region);
  }

  lemma StepKeyed(s: State, e: Event)
    requires Keyed(s.rows) && Enabled(s, e)
    ensures Keyed(Step(s, e).rows)
  {
    if e.Remove? {
      forall r ensures r in WithoutId(s.rows, e.id) ==> r in s.rows {
        WithoutIdMeaning(s.rows, e.id, r);
      }
    }
  }

  // ---------------------------------------------------------------- start-up

  /** DISTINCT ON (region) … ORDER BY region, effective_from DESC: one latest row for each region that has rows. */
  ghost predicate PicksLatest(rows: seq<Row>, picks: map<string, Row>) {
    && (forall region :: region in picks <==> AnyRow(rows, region))
    && forall region :: region in picks ==> IsLatest(rows, region, picks[region])
  }

  lemma PickNext(rows: seq<Row>, i: nat, picks: map<string, Row>)
    requires i < |rows| && PicksLatest(rows[..i], picks)
    ensures var row := rows[i];
      var picks' := if row.region !in picks || row.at > picks[row.region].at then picks[row.region := row] else picks;
      PicksLatest(rows[..i + 1], picks')
  {
    var row := rows[i];
    assert rows[..i + 1] == rows[..i] + [row];
    assert forall r :: r in rows[..i + 1] <==> r in rows[..i] || r == row;
    assert row in rows[..i + 1];
  }

  /** preloadTariffs */
  function Preloaded(s: State, picks: map<string, Row>): State {
    s.(cache := map region | region in s.cache.Keys + picks.Keys ::
      if region in picks then Entry(picks[region].price, s.now + TTL) else s.cache[region])
  }

  lemma PreloadNone(s: State)
    ensures Preloaded(s, map[]) == s
  {
  }

  lemma PreloadOne(s: State, picks: map<string, Row>, region: string, row: Row)
    ensures Preloaded(s, picks[region := row]) == Cached(Preloaded(s, picks), region, row.price)
  {
  }

  /** Whatever the cache held, preloading makes it coherent, except for live entries of regions without rows and for
      ties. */
  lemma PreloadExact(s: State, picks: map<string, Row>)
    requires PicksLatest(s.rows, picks)
    ensures Coherent(Preloaded(s, picks)) <==>
      (forall region :: region in picks ==> TiesAgree(s.rows, region, picks[region].price)) &&
      (forall region :: region in s.cache && Live(s, region) ==> region in picks)
  {
    var s' := Preloaded(s, picks);
    forall region | region in picks
      ensures CoherentAt(s', region) <==> TiesAgree(s.rows, region, picks[region].price)
    {
      assert IsLatest(s.rows, region, picks[region]);
    }
    forall region | region in s.cache && region !in picks
      ensures CoherentAt(s', region) <==> !Live(s, region)
    {
      assert !AnyRow(s.rows, region);
    }
    assert forall region :: region in picks ==> region in s'.cache;
    assert forall region :: region in s.cache ==> region in s'.cache;
  }

  // ---------------------------------------------------------------- answers

  /** Over a coherent cache getCurrentTariff answers with the price of a latest row, and with none only when there is
      no row. */
  lemma AnswerIsInForce(s: State, region: string, pick: Option<Row>)
    requires Coherent(s) && Asked(s, region, pick)
    ensures Answer(s, region, pick).None? <==> !AnyRow(s.rows, region)
    ensures Answer(s, region, pick).Some? ==>
      exists row :: IsLatest(s.rows, region, row) && row.price == Answer(s, region, pick).value
  {
    if Live(s, region) {
      assert CoherentAt(s, region);
      var row :| IsLatest(s.rows, region, row);
    }
  }

  // ---------------------------------------------------------------- runs

  function Run(s: State, events: seq<Event>): State
    decreases |events|
  {
    if events == [] then s else Step(Run(s, events[..|events| - 1]), events[|events| - 1])
  }

  ghost predicate EnabledAt(s: State, events: seq<Event>, i: nat)
    requires i < |events|
  {
    Enabled(Run(s, events[..i]), events[i])
  }

  ghost predicate GoodAt(s: State, events: seq<Event>, i: nat)
    requires i < |events|
  {
    Good(Run(s, events[..i]), events[i])
  }

  ghost predicate CoherentAfter(s: State, events: seq<Event>, i: nat)
    requires i <= |events|
  {
    Coherent(Run(s, events[..i]))
  }

  lemma RunSnoc(s: State, events: seq<Event>, i: nat)
    requires i < |events|
    ensures Run(s, events[..i + 1]) == Step(Run(s, events[..i]), events[i])
  {
    assert events[..i + 1][..i] == events[..i];
  }

  lemma {:induction false} PrefixCoherent(s: State, events: seq<Event>, n: nat)
    requires n <= |events| && Coherent(s) && Keyed(s.rows)
    requires forall i :: 0 <= i < |events| ==> EnabledAt(s, events, i)
    requires forall i :: 0 <= i < n ==> GoodAt(s, events, i)
    ensures Coherent(Run(s, events[..n])) && Keyed(Run(s, events[..n]).rows)
  {
    hide Coherent, Keyed, Enabled, Good, Step;
    if n == 0 {
      assert events[..0] == [];
    } else {
      PrefixCoherent(s, events, n - 1);
      RunSnoc(s, events, n - 1);
      assert EnabledAt(s, events, n - 1) && GoodAt(s, events, n - 1);
      StepExact(Run(s, events[..n - 1]), events[n - 1]);
    }
  }

  /** A run keeps the cache coherent throughout exactly when every one of its steps is good. */
  lemma RunExact(s: State, events: seq<Event>)
    requires Coherent(s) && Keyed(s.rows)
    requires forall i :: 0 <= i < |events| ==> EnabledAt(s, events, i)
    ensures (forall i :: 0 <= i <= |events| ==> CoherentAfter(s, events, i)) <==>
      forall i :: 0 <= i < |events| ==> GoodAt(s, events, i)
  {
    hide Coherent, Keyed, Enabled, Good, Step;
    if forall i :: 0 <= i < |events| ==> GoodAt(s, events, i) {
      forall i | 0 <= i <= |events| ensures CoherentAfter(s, events, i) {
        PrefixCoherent(s, events, i);
      }
    } else {
      FirstBadStep(s, events);
    }
  }

  lemma FirstBadStep(s: State, events: seq<Event>)
    requires Coherent(s) && Keyed(s.rows)
    requires forall i :: 0 <= i < |events| ==> EnabledAt(s, events, i)
    requires exists i :: 0 <= i < |events| && !GoodAt(s, events, i)
    ensures exists i :: 0 <= i <= |events| && !CoherentAfter(s, events, i)
  {
    hide Coherent, Keyed, Enabled, Good, Step;
    var n := 0;
    while GoodAt(s, events, n)
      invariant n < |events| && exists i :: n <= i < |events| && !GoodAt(s, events, i)
      invariant forall i :: 0 <= i < n ==> GoodAt(s, events, i)
      decreases |events| - n
    {
      n := n + 1;
    }
    PrefixCoherent(s, events, n);
    RunSnoc(s, events, n);
    assert EnabledAt(s, events, n);
    StepExact(Run(s, events[..n]), events[n]);
    assert !CoherentAfter(s, events, n + 1);
  }

  // ---------------------------------------------------------------- the stated discipline

  /** Rows of one region stand in the table in the order of their effective_from. */
  ghost predicate Ordered(rows: seq<Row>) {
    forall i, j :: 0 <= i < j < |rows| && rows[i].region == rows[j].region ==> rows[i].at < rows[j].at
  }

  /** The region's row inserted last, of those still there. */
  function LastRow(rows: seq<Row>, region: string): Option<Row> {
    if rows == [] then None
    else if rows[|rows| - 1].region == region then Some(rows[|rows| - 1])
    else LastRow(rows[..|rows| - 1], region)
  }

  lemma {:induction false} LastRowIsLatest(rows: seq<Row>, region: string)
    requires Ordered(rows)
    ensures forall r :: IsLatest(rows, region, r) <==> LastRow(rows, region) == Some(r)
    ensures AnyRow(rows, region) <==> LastRow(rows, region).Some?
    decreases |rows|
  {
    if rows != [] {
      var before, last := rows[..|rows| - 1], rows[|rows| - 1];
      assert rows == before + [last];
      LastRowIsLatest(before, region);
      if last.region == region {
        OwnLast(before, last);
      } else {
        OtherLast(before, last, region);
      }
      hide IsLatest, AnyRow, Ordered;
    }
  }

  lemma OwnLast(before: seq<Row>, last: Row)
    requires Ordered(before + [last])
    ensures forall r :: IsLatest(before + [last], last.region, r) <==> r == last
    ensures AnyRow(before + [last], last.region)
  {
    var rows := before + [last];
    assert rows[|before|] == last;
    forall r | r in before && r.region == last.region ensures r.at < last.at {
      var i :| 0 <= i < |before| && before[i] == r;
      assert rows[i] == r;
    }
  }

  lemma OtherLast(before: seq<Row>, last: Row, region: string)
    requires last.region != region
    ensures forall r :: IsLatest(before + [last], region, r) <==> IsLatest(before, region, r)
    ensures AnyRow(before + [last], region) <==> AnyRow(before, region)
  {
    assert forall r :: r in before + [last] <==> r in before || r == last;
  }

  lemma {:induction false} WithoutIdOrdered(rows: seq<Row>, id: string)
    requires Ordered(rows)
    ensures Ordered(WithoutId(rows, id))
    decreases |rows|
  {
    if rows != [] {
      var before, last := rows[..|rows| - 1], rows[|rows| - 1];
      WithoutIdOrdered(before, id);
      forall r ensures r in WithoutId(before, id) ==> r in before {
        WithoutIdMeaning(before, id, r);
      }
      assert forall r :: r in before && r.region == last.region ==> r.at < last.at;
    }
  }

  /** effective_from grows with insertion, prices have at most four decimals, a removal leaves the region a row, and the
      cache is written after every change. */
  ghost predicate Disciplined(s: State, e: Event) {
    match e
    case Insert(_, region, price, at, cached) =>
      cached && price % 100 == 0 && forall r :: r in s.rows && r.region == region ==> r.at < at
    case Remove(id, pick, cached) => ById(s.rows, id).Some? ==> pick.Some? && cached
    case Read(_, _) => true
    case Advance(_) => true
  }

  lemma DisciplinedStep(s: State, e: Event)
    requires Ordered(s.rows) && Enabled(s, e) && Disciplined(s, e)
    ensures Good(s, e) && Ordered(Step(s, e).rows)
  {
    match e
    case Insert(_, _, _, _, _) =>
    case Remove(id, pick, _) =>
      WithoutIdOrdered(s.rows, id);
      if ById(s.rows, id).Some? {
        LastRowIsLatest(WithoutId(s.rows, id), ById(s.rows, id).value.region);
      }
    case Read(region, _) => LastRowIsLatest(s.rows, region);
    case Advance(_) =>
  }

  ghost predicate DisciplinedAt(s: State, events: seq<Event>, i: nat)
    requires i < |events|
  {
    EnabledAt(s, events, i) && Disciplined(Run(s, events[..i]), events[i])
  }

  lemma {:induction false} DisciplinedPrefix(s: State, events: seq<Event>, n: nat)
    requires n <= |events| && Coherent(s) && Keyed(s.rows) && Ordered(s.rows)
    requires forall i :: 0 <= i < |events| ==> DisciplinedAt(s, events, i)
    ensures var t := Run(s, events[..n]); Coherent(t) && Keyed(t.rows) && Ordered(t.rows)
  {
    hide Coherent, Keyed, Ordered, Enabled, Disciplined, Good, Step;
    if n == 0 {
      assert events[..0] == [];
    } else {
      DisciplinedPrefix(s, events, n - 1);
      RunSnoc(s, events, n - 1);
      assert DisciplinedAt(s, events, n - 1);
      DisciplinedStep(Run(s, events[..n - 1]), events[n - 1]);
      StepExact(Run(s, events[..n - 1]), events[n - 1]);
    }
  }

  /** After any disciplined run getCurrentTariff answers with the region's last inserted row that is still there. */
  lemma DisciplinedRunAnswers(s: State, events: seq<Event>, region: string, pick: Option<Row>)
    requires Coherent(s) && Keyed(s.rows) && Ordered(s.rows)
    requires forall i :: 0 <= i < |events| ==> DisciplinedAt(s, events, i)
    requires Asked(Run(s, events), region, pick)
    ensures var last := LastRow(Run(s, events).rows, region);
      Answer(Run(s, events), region, pick) == if last.Some? then Some(last.value.price) else None
  {
    hide Coherent, Keyed, Ordered, Enabled, Disciplined, Run, Step;
    assert events[..|events|] == events;
    DisciplinedPrefix(s, events, |events|);
    LastRowIsLatest(Run(s, events).rows, region);
    AnswerIsInForce(Run(s, events), region, pick);
  }

  lemma FirstInsert(id: string, region: string, price: int, now: int)
    requires price >= 0 && price % 100 == 0
    ensures var s := Step(State([], map[], now), Insert(id, region, price, now, true));
      s == State([Row(id, region, price, now)], map[region := Entry(price, now + TTL)], now) && Coherent(s)
  {
    InsertExact(State([], map[], now), Insert(id, region, price, now, true));
  }

  /** Removing a region's only row leaves its price in the cache. */
  lemma LastRemovalLeavesPrice(id: string, region: string, price: int, now: int)
    requires price >= 0 && price % 100 == 0
    ensures var s := Step(State([], map[], now), Insert(id, region, price, now, true));
      Coherent(s) && Answer(Step(s, Remove(id, None, true)), region, None) == Some(price) &&
      !AnyRow(Step(s, Remove(id, None, true)).rows, region)
  {
    FirstInsert(id, region, price, now);
    var s := Step(State([], map[], now), Insert(id, region, price, now, true));
    hide Coherent;
    assert s.rows[..0] == [];
    assert WithoutId(s.rows, id) == [];
  }

  /** An automatic update with an older timestamp overwrites the cached override, and only in the cache. */
  lemma OlderUpdateOverwrites(region: string, override: int, auto: int, now: int, late: nat)
    requires override >= 0 && override % 100 == 0 && auto >= 0 && auto != override && late > 0
    ensures var s := Step(State([], map[], now), Insert("o", region, override, now, true));
      var t := Step(s, Insert("a", region, auto, now - late, true));
      Coherent(s) && Answer(t, region, None) == Some(auto) && InForce(t.rows, region, override)
  {
    FirstInsert("o", region, override, now);
    hide Coherent;
    var row := Row("o", region, override, now);
    var older := Row("a", region, ToColumn(auto), now - late);
    assert [row] + [older] == [row, older];
    assert IsLatest([row, older], region, row);
  }
}

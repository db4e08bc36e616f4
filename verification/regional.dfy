// getRegionalAggregates1m: one roll-up per region over the ready 1-minute windows.

module Regional {
  import Arithmetic
  import opened Text
  import opened Windows
  import opened Aggregator

  /** regionalData's values while the loops run */
  datatype RegionalData = RegionalData(meterIds: set<string>, totalPowerSum: real, meterCount: int,
                                       maxPower: real, minPower: Num)

  datatype RegionalAggregate = RegionalAggregate(region: string, meterCount: int, totalConsumption: real,
                                                 avgConsumption: real, maxConsumption: real, minConsumption: Num,
                                                 loadPercentage: real, activeMeters: set<string>)

  const FRESH := RegionalData({}, 0.0, 0, 0.0, PosInf)

  predicate Counted(w: Window) {
    w.stats.count > 0
  }

  function Average(w: Window): real
    requires Counted(w)
  {
    w.stats.powerSum / w.stats.count as real
  }

  // ---------------------------------------------------------------- what a region's roll-up means

  /** A ready window together with the bucket it came from. */
  datatype Visit = Visit(bucket: string, window: Window)

  ghost predicate AllCounted(vs: seq<Visit>) {
    forall i :: 0 <= i < |vs| ==> Counted(vs[i].window)
  }

  ghost function InRegion(vs: seq<Visit>, region: string): (sel: seq<Visit>)
    ensures forall i :: 0 <= i < |sel| ==> sel[i] in vs && sel[i].window.region == region
  {
    if vs == [] then []
    else
      var last := vs[|vs| - 1];
      InRegion(vs[..|vs| - 1], region) + if last.window.region == region then [last] else []
  }

  ghost function Averages(vs: seq<Visit>): (xs: seq<real>)
    requires AllCounted(vs)
    ensures |xs| == |vs|
  {
    seq(|vs|, i requires 0 <= i < |vs| => Average(vs[i].window))
  }

  ghost function Meters(vs: seq<Visit>): set<string> {
    set i | 0 <= i < |vs| :: vs[i].window.meterId
  }

  /** It bounds the maxima of the windows, and is one of them or 0. */
  ghost predicate MaximumOf(max: real, vs: seq<Visit>) {
    && (forall i :: 0 <= i < |vs| ==> vs[i].window.stats.maxPower <= max)
    && (max == 0.0 || exists i :: 0 <= i < |vs| && vs[i].window.stats.maxPower == max)
  }

  /** d sums, counts, bounds and names exactly the windows in vs. */
  ghost predicate Rolls(d: RegionalData, vs: seq<Visit>)
    requires AllCounted(vs)
  {
    && d.meterIds == Meters(vs)
    && d.totalPowerSum == Sum(Averages(vs))
    && d.meterCount == |vs|
    && MaximumOf(d.maxPower, vs)
    && (if vs == [] then d.minPower == PosInf else d.minPower.Fin? && Least(d.minPower.v, Averages(vs)))
  }

  function AddWindow(d: RegionalData, w: Window): RegionalData
    requires Counted(w)
  {
    RegionalData(d.meterIds + {w.meterId}, d.totalPowerSum + Average(w), d.meterCount + 1,
                 Max(d.maxPower, w.stats.maxPower), Min(d.minPower, Fin(Average(w))))
  }

  lemma AveragesSnoc(vs: seq<Visit>, v: Visit)
    requires AllCounted(vs + [v])
    ensures AllCounted(vs) && Counted(v.window)
    ensures Averages(vs + [v]) == Averages(vs) + [Average(v.window)]
    ensures Sum(Averages(vs + [v])) == Sum(Averages(vs)) + Average(v.window)
  {
    assert (vs + [v])[|vs|] == v && forall i :: 0 <= i < |vs| ==> (vs + [v])[i] == vs[i];
    assert (Averages(vs) + [Average(v.window)])[..|vs|] == Averages(vs);
  }

  lemma AddRolls(d: RegionalData, vs: seq<Visit>, v: Visit)
    requires AllCounted(vs + [v]) && AllCounted(vs) && Rolls(d, vs)
    ensures Counted(v.window) && Rolls(AddWindow(d, v.window), vs + [v])
  {
    AveragesSnoc(vs, v);
    MetersSnoc(vs, v);
    MaximumSnoc(d.maxPower, vs, v);
    MinimumSnoc(d.minPower, Averages(vs), Average(v.window));
    hide Sum, Average, Averages, Meters, Least, Max, Min;
  }

  lemma MetersSnoc(vs: seq<Visit>, v: Visit)
    ensures Meters(vs + [v]) == Meters(vs) + {v.window.meterId}
  {
    var vs' := vs + [v];
    assert vs'[|vs|] == v && forall i :: 0 <= i < |vs| ==> vs'[i] == vs[i];
  }

  lemma MaximumSnoc(max: real, vs: seq<Visit>, v: Visit)
    requires MaximumOf(max, vs)
    ensures MaximumOf(Max(max, v.window.stats.maxPower), vs + [v])
  {
    var vs', max' := vs + [v], Max(max, v.window.stats.maxPower);
    assert vs'[|vs|] == v && forall i :: 0 <= i < |vs| ==> vs'[i] == vs[i];
    if max' != 0.0 && max' == max {
      var i :| 0 <= i < |vs| && vs[i].window.stats.maxPower == max;
      assert vs'[i].window.stats.maxPower == max';
    }
  }

  lemma MinimumSnoc(min: Num, xs: seq<real>, x: real)
    requires if xs == [] then min == PosInf else min.Fin? && Least(min.v, xs)
    ensures Min(min, Fin(x)).Fin? && Least(Min(min, Fin(x)).v, xs + [x])
  {
    assert (xs + [x])[|xs|] == x && forall i :: 0 <= i < |xs| ==> (xs + [x])[i] == xs[i];
  }

  /** The table rolls up, for every region with a visited window and no other, that region's windows. */
  ghost predicate TableRolls(table: map<string, RegionalData>, vs: seq<Visit>)
    requires AllCounted(vs)
  {
    forall region :: RegionRolls(table, vs, region)
  }

  ghost predicate RegionRolls(table: map<string, RegionalData>, vs: seq<Visit>, region: string)
    requires AllCounted(vs)
  {
    var sel := InRegion(vs, region);
    && AllCounted(sel)
    && (region in table <==> sel != [])
    && (region in table ==> Rolls(table[region], sel))
  }

  lemma VisitRolls(table: map<string, RegionalData>, vs: seq<Visit>, v: Visit)
    requires AllCounted(vs) && Counted(v.window) && TableRolls(table, vs)
    ensures AllCounted(vs + [v])
    ensures var r := v.window.region;
      TableRolls(table[r := AddWindow(if r in table then table[r] else FRESH, v.window)], vs + [v])
  {
    var r, vs' := v.window.region, vs + [v];
    var table' := table[r := AddWindow(if r in table then table[r] else FRESH, v.window)];
    hide AddWindow, Rolls;
    forall region ensures RegionRolls(table', vs', region) {
      assert RegionRolls(table, vs, region);
      var sel := InRegion(vs, region);
      assert vs'[..|vs|] == vs;
      if region == r {
        assert InRegion(vs', region) == sel + [v];
        if r !in table {
          FreshRolls();
        }
        AddRolls(if r in table then table[r] else FRESH, sel, v);
      } else {
        assert InRegion(vs', region) == sel;
      }
    }
  }

  lemma FreshRolls()
    ensures Rolls(FRESH, [])
  {
    assert Sum(Averages([])) == 0.0;
  }

  // ---------------------------------------------------------------- conservation

  /** One region's window count and total consumption. */
  ghost function RegionTotal(vs: seq<Visit>, region: string): (int, real)
    requires AllCounted(vs)
  {
    var sel := InRegion(vs, region);
    assert AllCounted(sel) by { assert forall i :: 0 <= i < |sel| ==> sel[i] in vs; }
    (|sel|, Sum(Averages(sel)))
  }

  /** Window counts and totals of the given regions, added up. */
  ghost function Totals(vs: seq<Visit>, regions: set<string>): (int, real)
    requires AllCounted(vs)
  {
    if regions == {} then (0, 0.0)
    else
      var one, rest := RegionTotal(vs, Pick(regions)), Totals(vs, regions - {Pick(regions)});
      (one.0 + rest.0, one.1 + rest.1)
  }

  lemma RegionTotalSnoc(vs: seq<Visit>, v: Visit, region: string)
    requires AllCounted(vs) && Counted(v.window)
    ensures AllCounted(vs + [v])
    ensures var (n, total) := RegionTotal(vs, region);
      RegionTotal(vs + [v], region) ==
        if v.window.region == region then (n + 1, total + Average(v.window)) else (n, total)
  {
    var sel := InRegion(vs, region);
    assert (vs + [v])[..|vs|] == vs;
    assert AllCounted(sel) by { assert forall i :: 0 <= i < |sel| ==> sel[i] in vs; }
    if v.window.region == region {
      AveragesSnoc(sel, v);
    } else {
      assert InRegion(vs + [v], region) == sel;
    }
  }

  lemma {:induction false} TotalsSnoc(vs: seq<Visit>, v: Visit, regions: set<string>)
    requires AllCounted(vs) && Counted(v.window)
    ensures AllCounted(vs + [v])
    ensures var (n, total) := Totals(vs, regions);
      Totals(vs + [v], regions) == if v.window.region in regions then (n + 1, total + Average(v.window)) else (n, total)
  {
    hide RegionTotal, Average;
    if regions != {} {
      RegionTotalSnoc(vs, v, Pick(regions));
      TotalsSnoc(vs, v, regions - {Pick(regions)});
    }
  }

  lemma {:induction false} TotalsOfNothing(regions: set<string>)
    ensures Totals([], regions) == (0, 0.0)
  {
    if regions != {} {
      assert RegionTotal([], Pick(regions)) == (0, 0.0);
      TotalsOfNothing(regions - {Pick(regions)});
    }
  }

  lemma NoAverages()
    ensures AllCounted([]) && Sum(Averages([])) == 0.0
  {
  }

  /** Over all regions, the window counts add up to the number of windows and the total consumptions
      to the sum of the window averages: no window is dropped or counted twice. */
  lemma {:induction false} NothingLost(vs: seq<Visit>, regions: set<string>)
    requires AllCounted(vs) && forall i :: 0 <= i < |vs| ==> vs[i].window.region in regions
    ensures Totals(vs, regions) == (|vs|, Sum(Averages(vs)))
  {
    hide Totals, Sum, Averages, Average;
    if vs == [] {
      TotalsOfNothing(regions);
      NoAverages();
    } else {
      var init, last := vs[..|vs| - 1], vs[|vs| - 1];
      assert vs == init + [last];
      assert forall i :: 0 <= i < |init| ==> init[i] == vs[i];
      NothingLost(init, regions);
      TotalsSnoc(init, last, regions);
      AveragesSnoc(init, last);
    }
  }

  // ---------------------------------------------------------------- bounds

  lemma DivideBounds(lo: real, hi: real, total: real, n: real)
    requires n > 0.0
    ensures lo * n <= total ==> lo <= total / n
    ensures total <= hi * n ==> total / n <= hi
  {
    var q := total / n;
    assert q * n == total;
    if lo * n <= total {
      Arithmetic.Unscale(lo, q, n);
    }
    if total <= hi * n {
      Arithmetic.Unscale(q, hi, n);
    }
  }

  lemma PowersBelow(rs: seq<Reading>, hi: real)
    requires forall i :: 0 <= i < |rs| ==> rs[i].powerKw <= hi
    ensures Sum(Powers(rs)) <= hi * |rs| as real
  {
    SumBelow(Powers(rs), hi);
  }

  lemma FoldAverage(rs: seq<Reading>)
    requires rs != []
    ensures Fold(rs).powerSum / |rs| as real <= Fold(rs).maxPower
  {
    hide *;
    FoldSums(rs);
    FoldExtremes(rs);
    PowersBelow(rs, Fold(rs).maxPower);
    DivideBounds(Fold(rs).maxPower, Fold(rs).maxPower, Fold(rs).powerSum, |rs| as real);
  }

  /** A window's average never exceeds its maximum. */
  lemma AverageBelowMax(rs: seq<Reading>, meter: string)
    requires rs != []
    ensures var w := WindowOf(rs, meter); Counted(w) && Average(w) <= w.stats.maxPower
  {
    hide Fold, Sum, Powers, Energies, Voltages;
    FoldSums(rs);
    FoldAverage(rs);
  }

  /** config.regionalCapacity[region] || 1000000 */
  function Capacity(capacities: map<string, real>, region: string): (c: real)
    ensures region !in capacities ==> c == 1000000.0
    ensures region in capacities && capacities[region] != 0.0 ==> c == capacities[region]
    ensures (forall r :: r in capacities ==> capacities[r] >= 0.0) ==> c > 0.0
  {
    if region in capacities && capacities[region] != 0.0 then capacities[region] else 1000000.0
  }

  /** parseFloat(x.toFixed(2)) of a non-negative number */
  function TwoDecimals(x: real): real {
    (x * 100.0 + 0.5).Floor as real / 100.0
  }

  function Published(region: string, d: RegionalData, capacity: real): RegionalAggregate
    requires d.meterCount > 0 && capacity > 0.0
  {
    RegionalAggregate(region, d.meterCount, d.totalPowerSum, d.totalPowerSum / d.meterCount as real, d.maxPower,
                      if d.minPower == PosInf then Fin(0.0) else d.minPower,
                      TwoDecimals(d.totalPowerSum / capacity * 100.0), d.meterIds)
  }

  /** The load is this share of the capacity in percent, to the nearest hundredth. */
  ghost predicate LoadOf(load: real, total: real, capacity: real) {
    && (load * 100.0).Floor as real == load * 100.0
    && -0.005 * capacity <= load * capacity - 100.0 * total <= 0.005 * capacity
  }

  /** What the fields of a published roll-up say about the windows of its region. */
  ghost predicate Reports(p: RegionalAggregate, region: string, vs: seq<Visit>, capacity: real)
    requires AllCounted(vs)
  {
    && p.region == region && p.meterCount == |vs| && p.totalConsumption == Sum(Averages(vs))
    && MeanOf(p.avgConsumption, Averages(vs)) && MaximumOf(p.maxConsumption, vs)
    && p.minConsumption.Fin? && Least(p.minConsumption.v, Averages(vs))
    && p.activeMeters == Meters(vs) && LoadOf(p.loadPercentage, Sum(Averages(vs)), capacity)
  }

  lemma LoadIs(total: real, capacity: real)
    requires capacity > 0.0
    ensures LoadOf(TwoDecimals(total / capacity * 100.0), total, capacity)
  {
    var x := total / capacity * 100.0;
    var load := TwoDecimals(x);
    assert load * 100.0 == (x * 100.0 + 0.5).Floor as real;
    assert -0.005 <= load - x <= 0.005;
    LoadScaled(load, x, total, capacity);
  }

  lemma LoadScaled(load: real, x: real, total: real, capacity: real)
    requires capacity > 0.0 && x == total / capacity * 100.0 && -0.005 <= load - x <= 0.005
    ensures -0.005 * capacity <= load * capacity - 100.0 * total <= 0.005 * capacity
  {
    var share := total / capacity;
    assert share * capacity == total;
    assert x * capacity == 100.0 * (share * capacity);
    var d := load - x;
    assert load * capacity == x * capacity + d * capacity;
    assert load * capacity - 100.0 * total == d * capacity;
    Arithmetic.Scale(-0.005, d, capacity);
    Arithmetic.Scale(d, 0.005, capacity);
  }

  lemma PublishedReports(region: string, d: RegionalData, vs: seq<Visit>, capacity: real)
    requires vs != [] && AllCounted(vs) && Rolls(d, vs) && capacity > 0.0
    ensures d.meterCount > 0 && Reports(Published(region, d, capacity), region, vs, capacity)
  {
    LoadIs(d.totalPowerSum, capacity);
    MeanIs(d.totalPowerSum, Averages(vs));
    hide Sum, MeanOf, LoadOf, TwoDecimals, Averages, Average, MaximumOf, Least, Meters;
  }

  /** minConsumption <= avgConsumption <= maxConsumption for every published region. */
  lemma PublishedBounds(p: RegionalAggregate, region: string, vs: seq<Visit>, capacity: real)
    requires vs != [] && AllCounted(vs) && Reports(p, region, vs, capacity)
    requires forall i :: 0 <= i < |vs| ==> Average(vs[i].window) <= vs[i].window.stats.maxPower
    ensures p.minConsumption.v <= p.avgConsumption <= p.maxConsumption
  {
    hide Sum, Average, LoadOf, Meters;
    var xs := Averages(vs);
    MeanBetween(p.avgConsumption, xs, p.minConsumption.v, p.maxConsumption);
  }

  /** No meter has two of the windows. */
  ghost predicate DistinctMeters(vs: seq<Visit>) {
    forall i, j :: 0 <= i < j < |vs| ==> vs[i].window.meterId != vs[j].window.meterId
  }

  lemma DistinctSnoc(vs: seq<Visit>)
    requires vs != []
    ensures var init, m := vs[..|vs| - 1], vs[|vs| - 1].window.meterId;
      && Meters(vs) == Meters(init) + {m}
      && (DistinctMeters(vs) <==> DistinctMeters(init) && m !in Meters(init))
  {
    var init, m := vs[..|vs| - 1], vs[|vs| - 1].window.meterId;
    assert vs == init + [vs[|vs| - 1]];
    MetersSnoc(init, vs[|vs| - 1]);
    assert forall i :: 0 <= i < |init| ==> init[i] == vs[i];
    if m in Meters(init) {
      var i :| 0 <= i < |init| && init[i].window.meterId == m;
      assert !DistinctMeters(vs) by { assert vs[i].window.meterId == vs[|vs| - 1].window.meterId; }
    } else {
      forall i | 0 <= i < |init| ensures init[i].window.meterId != m {
        assert init[i].window.meterId in Meters(init);
      }
    }
    hide Meters;
  }

  lemma {:induction false} MetersAtMost(vs: seq<Visit>)
    ensures |Meters(vs)| <= |vs|
    ensures |Meters(vs)| == |vs| <==> DistinctMeters(vs)
  {
    if vs != [] {
      hide DistinctMeters, Meters;
      MetersAtMost(vs[..|vs| - 1]);
      DistinctSnoc(vs);
    } else {
      assert Meters(vs) == {};
    }
  }

  /** activeMeters is never longer than meterCount, and as long exactly when no meter of the region
      has two ready buckets. */
  lemma ActiveMeters(d: RegionalData, vs: seq<Visit>)
    requires AllCounted(vs) && Rolls(d, vs)
    ensures |d.meterIds| <= d.meterCount
    ensures |d.meterIds| == d.meterCount <==> DistinctMeters(vs)
  {
    MetersAtMost(vs);
  }

  // ---------------------------------------------------------------- the loops

  /** vs visits each ready window exactly once. */
  ghost predicate Visits(vs: seq<Visit>, ws: WindowTable, keys: set<(string, string)>) {
    && (forall i :: 0 <= i < |vs| ==> VisitOf(vs[i], ws, keys))
    && (forall k :: k in keys ==> Visited(vs, k))
    && (forall i, j :: 0 <= i < j < |vs| ==> VisitKey(vs[i]) != VisitKey(vs[j]))
  }

  function VisitKey(v: Visit): (string, string) {
    (v.window.meterId, v.bucket)
  }

  ghost predicate VisitOf(v: Visit, ws: WindowTable, keys: set<(string, string)>) {
    && VisitKey(v) in keys && Has(ws, v.bucket, v.window.meterId)
    && v.window == ws[v.bucket][v.window.meterId]
  }

  ghost predicate Visited(vs: seq<Visit>, k: (string, string)) {
    exists i :: 0 <= i < |vs| && VisitKey(vs[i]) == k
  }

  lemma VisitAdded(vs: seq<Visit>, ws: WindowTable, keys: set<(string, string)>, bucket: string, meterId: string)
    requires Sound(ws) && Visits(vs, ws, keys) && Has(ws, bucket, meterId) && (meterId, bucket) !in keys
    ensures Visits(vs + [Visit(bucket, ws[bucket][meterId])], ws, keys + {(meterId, bucket)})
  {
    var v := Visit(bucket, ws[bucket][meterId]);
    var vs' := vs + [v];
    assert vs'[|vs|] == v && VisitKey(v) == (meterId, bucket);
    forall k | k in keys + {(meterId, bucket)} ensures Visited(vs', k) {
      if k in keys {
        assert Visited(vs, k);
        var i :| 0 <= i < |vs| && VisitKey(vs[i]) == k;
        assert vs'[i] == vs[i];
      } else {
        assert VisitKey(vs'[|vs|]) == k;
      }
    }
    forall i | 0 <= i < |vs|
      ensures VisitOf(vs'[i], ws, keys + {(meterId, bucket)}) && VisitKey(vs'[i]) != VisitKey(v)
    {
      assert vs'[i] == vs[i] && VisitOf(vs[i], ws, keys);
    }
    hide VisitKey, Visited;
  }

  method RegionalAggregates(windows: WindowTable, cur: string)
    returns (regionalData: map<string, RegionalData>, ghost visited: seq<Visit>)
    requires Sound(windows)
    ensures Visits(visited, windows, ReadyKeys(windows, cur))
    ensures AllCounted(visited) && TableRolls(regionalData, visited)
  {
    hide LexLess, AddWindow, TableRolls, Rolls;
    regionalData, visited := map[], [];
    NothingRolls();
    var buckets := windows.Keys;
    ghost var seen: set<(string, string)> := {};
    while buckets != {}
      invariant buckets <= windows.Keys
      invariant Visits(visited, windows, seen) && AllCounted(visited) && TableRolls(regionalData, visited)
      invariant forall m, b :: (m, b) in seen <==> b in windows && b !in buckets && m in windows[b] && LexLess(b, cur)
      decreases |buckets|
    {
      var bucket :| bucket in buckets;
      buckets := buckets - {bucket};
      if LexLess(bucket, cur) {
        var meters := windows[bucket].Keys;
        while meters != {}
          invariant meters <= windows[bucket].Keys
          invariant Visits(visited, windows, seen) && AllCounted(visited) && TableRolls(regionalData, visited)
          invariant forall m, b :: (m, b) in seen <==>
            b in windows && b !in buckets && m in windows[b] && LexLess(b, cur) && !(b == bucket && m in meters)
          decreases |meters|
        {
          var meterId :| meterId in meters;
          meters := meters - {meterId};
          assert Has(windows, bucket, meterId);
          var window := windows[bucket][meterId];
          VisitRolls(regionalData, visited, Visit(bucket, window));
          VisitAdded(visited, windows, seen, bucket, meterId);
          var regional := if window.region in regionalData then regionalData[window.region] else FRESH;
          regionalData := regionalData[window.region := AddWindow(regional, window)];
          visited := visited + [Visit(bucket, window)];
          seen := seen + {(meterId, bucket)};
        }
      }
    }
    assert seen == ReadyKeys(windows, cur);
  }

  lemma NothingRolls()
    ensures TableRolls(map[], [])
  {
  }

  // ---------------------------------------------------------------- the published roll-ups together

  lemma {:induction false} VisitCount(vs: seq<Visit>, ws: WindowTable, keys: set<(string, string)>)
    requires Visits(vs, ws, keys)
    ensures |vs| == |keys|
  {
    if vs != [] {
      var init, v := vs[..|vs| - 1], vs[|vs| - 1];
      var k := (v.window.meterId, v.bucket);
      var keys' := keys - {k};
      assert forall i :: 0 <= i < |init| ==> init[i] == vs[i];
      forall q | q in keys' ensures Visited(init, q) {
        assert Visited(vs, q);
        var i :| 0 <= i < |vs| && VisitKey(vs[i]) == q;
        assert init[i] == vs[i];
      }
      VisitCount(init, ws, keys');
    }
  }

  lemma {:induction false} InRegionHas(vs: seq<Visit>, i: nat)
    requires i < |vs|
    ensures vs[i] in InRegion(vs, vs[i].window.region)
  {
    if i < |vs| - 1 {
      InRegionHas(vs[..|vs| - 1], i);
    }
  }

  /** The list built from the table, by region. */
  function Publish(table: map<string, RegionalData>, capacities: map<string, real>): map<string, RegionalAggregate>
    requires Publishable(table, capacities)
  {
    map region | region in table :: Published(region, table[region], Capacity(capacities, region))
  }

  predicate Publishable(table: map<string, RegionalData>, capacities: map<string, real>) {
    && (forall region :: region in table ==> table[region].meterCount > 0)
    && forall region :: region in capacities ==> capacities[region] >= 0.0
  }

  /** meterCount and totalConsumption added up over these published roll-ups */
  ghost function Reported(published: map<string, RegionalAggregate>, regions: set<string>): (int, real)
    requires regions <= published.Keys
  {
    if regions == {} then (0, 0.0)
    else
      var p, rest := published[Pick(regions)], Reported(published, regions - {Pick(regions)});
      (p.meterCount + rest.0, p.totalConsumption + rest.1)
  }

  /** The window of a visit averages and bounds the powers read. */
  ghost predicate ReadFrom(v: Visit, key: BucketKey, rs: seq<Reading>)
    requires Counted(v.window)
  {
    var sel := Select(rs, key, v.bucket, v.window.meterId);
    && sel != [] && v.window.region == sel[|sel| - 1].region
    && MeanOf(Average(v.window), Powers(sel)) && GreatestOrZero(v.window.stats.maxPower, Powers(sel))
  }

  /** A published roll-up: what its fields say, their order, and when it names as many meters as it counts. */
  ghost predicate WellPublished(p: RegionalAggregate, region: string, sel: seq<Visit>, capacity: real)
    requires AllCounted(sel)
  {
    && sel != [] && Reports(p, region, sel, capacity)
    && p.minConsumption.v <= p.avgConsumption <= p.maxConsumption
    && |p.activeMeters| <= p.meterCount && (|p.activeMeters| == p.meterCount <==> DistinctMeters(sel))
  }

  /** The roll-ups are those of the regions visited. */
  ghost predicate AllPublished(published: map<string, RegionalAggregate>, vs: seq<Visit>, capacities: map<string, real>)
  {
    && (forall region :: region in published <==> InRegion(vs, region) != [])
    && forall region :: region in published ==> PublishedFor(published, vs, capacities, region)
  }

  ghost predicate PublishedFor(published: map<string, RegionalAggregate>, vs: seq<Visit>,
                               capacities: map<string, real>, region: string)
    requires region in published
  {
    var sel := InRegion(vs, region);
    AllCounted(sel) && WellPublished(published[region], region, sel, Capacity(capacities, region))
  }

  lemma {:induction false} ReportedIsTotal(published: map<string, RegionalAggregate>, vs: seq<Visit>,
                                           regions: set<string>, capacities: map<string, real>)
    requires AllCounted(vs) && regions <= published.Keys && AllPublished(published, vs, capacities)
    ensures Reported(published, regions) == Totals(vs, regions)
  {
    hide AllPublished, RegionTotal;
    if regions != {} {
      PublishedTotal(published, vs, capacities, Pick(regions));
      ReportedIsTotal(published, vs, regions - {Pick(regions)}, capacities);
    }
  }

  lemma PublishedTotal(published: map<string, RegionalAggregate>, vs: seq<Visit>, capacities: map<string, real>,
                       region: string)
    requires AllCounted(vs) && AllPublished(published, vs, capacities) && region in published
    ensures (published[region].meterCount, published[region].totalConsumption) == RegionTotal(vs, region)
  {
    assert PublishedFor(published, vs, capacities, region);
    hide AllPublished, Sum, Averages, InRegion, LoadOf, MeanOf, MaximumOf, Least, Meters, DistinctMeters;
  }

  /** What one flush publishes: one roll-up for every region with a ready window, and no other. Meter counts add up to
      the number of ready windows, total consumptions to the sum of their averages, each window's average is that of its
      readings, and every roll-up says what the windows of its region amount to. */
  lemma RegionalSummary(ws: WindowTable, key: BucketKey, rs: seq<Reading>, cur: string,
                        table: map<string, RegionalData>, vs: seq<Visit>, capacities: map<string, real>)
    requires Holds(ws, key, rs) && Visits(vs, ws, ReadyKeys(ws, cur)) && AllCounted(vs) && TableRolls(table, vs)
    requires forall region :: region in capacities ==> capacities[region] >= 0.0
    ensures Publishable(table, capacities)
    ensures var published := Publish(table, capacities);
      && AllPublished(published, vs, capacities)
      && Reported(published, published.Keys) == (|ReadyKeys(ws, cur)|, Sum(Averages(vs)))
    ensures forall i :: 0 <= i < |vs| ==> ReadFrom(vs[i], key, rs)
  {
    TablePublished(ws, key, rs, cur, table, vs, capacities);
    hide Sum, Averages, InRegion, Totals, Average, ReadyKeys, Published, Publish, DistinctMeters, ReadFrom, Reported,
      Visits, Holds, TableRolls, PublishedFor;
    forall i | 0 <= i < |vs| ensures ReadFrom(vs[i], key, rs) {
      VisitRead(ws, key, rs, vs, ReadyKeys(ws, cur), i);
    }
    var published := Publish(table, capacities);
    ReportedIsTotal(published, vs, published.Keys, capacities);
    forall i | 0 <= i < |vs| ensures vs[i].window.region in published {
      InRegionHas(vs, i);
    }
    NothingLost(vs, published.Keys);
    VisitCount(vs, ws, ReadyKeys(ws, cur));
  }

  lemma TablePublished(ws: WindowTable, key: BucketKey, rs: seq<Reading>, cur: string,
                       table: map<string, RegionalData>, vs: seq<Visit>, capacities: map<string, real>)
    requires Holds(ws, key, rs) && Visits(vs, ws, ReadyKeys(ws, cur)) && AllCounted(vs) && TableRolls(table, vs)
    requires forall region :: region in capacities ==> capacities[region] >= 0.0
    ensures Publishable(table, capacities) && AllPublished(Publish(table, capacities), vs, capacities)
  {
    hide InRegion, ReadyKeys, Rolls, Published, Visits, Holds, WellPublished, Capacity;
    forall region | region in table ensures table[region].meterCount > 0 {
      assert RegionRolls(table, vs, region);
      RollsCount(table[region], InRegion(vs, region));
    }
    var published := Publish(table, capacities);
    forall region ensures region in published <==> InRegion(vs, region) != [] {
      assert RegionRolls(table, vs, region);
    }
    forall region | region in published ensures PublishedFor(published, vs, capacities, region) {
      assert RegionRolls(table, vs, region);
      RegionPublished(ws, key, rs, cur, table[region], vs, region, Capacity(capacities, region));
    }
  }

  lemma RegionPublished(ws: WindowTable, key: BucketKey, rs: seq<Reading>, cur: string,
                        d: RegionalData, vs: seq<Visit>, region: string, capacity: real)
    requires Holds(ws, key, rs) && Visits(vs, ws, ReadyKeys(ws, cur)) && capacity > 0.0
    requires InRegion(vs, region) != [] && AllCounted(InRegion(vs, region)) && Rolls(d, InRegion(vs, region))
    ensures d.meterCount > 0 && WellPublished(Published(region, d, capacity), region, InRegion(vs, region), capacity)
  {
    var sel, p := InRegion(vs, region), Published(region, d, capacity);
    PublishedReports(region, d, sel, capacity);
    hide Sum, Averages, InRegion, Average, Fold, Select, ReadyKeys, Rolls, Published, DistinctMeters, Visits, Holds;
    forall i | 0 <= i < |sel| ensures Average(sel[i].window) <= sel[i].window.stats.maxPower {
      VisitBounded(ws, key, rs, vs, ReadyKeys(ws, cur), sel[i]);
    }
    PublishedBounds(p, region, sel, capacity);
    ActiveMeters(d, sel);

  }

  lemma VisitRead(ws: WindowTable, key: BucketKey, rs: seq<Reading>, vs: seq<Visit>, keys: set<(string, string)>,
                  i: nat)
    requires Holds(ws, key, rs) && Visits(vs, ws, keys) && i < |vs| && Counted(vs[i].window)
    ensures ReadFrom(vs[i], key, rs)
  {
    var v := vs[i];
    var sel := Select(rs, key, v.bucket, v.window.meterId);
    assert VisitOf(v, ws, keys);
    assert HoldsAt(ws, key, rs, v.bucket, v.window.meterId);
    hide Fold, Select, Visits, Holds, VisitOf, Sum, Powers;
    FoldSums(sel);
    FoldExtremes(sel);
    MeanIs(Fold(sel).powerSum, Powers(sel));
  }

  /** getRegionalAggregates1m: the loops over the ready windows, then one roll-up for each region they met. */
  method GetRegionalAggregates1m(windows: WindowTable, cur: string, capacities: map<string, real>,
                                 ghost key: BucketKey, ghost rs: seq<Reading>)
    returns (published: map<string, RegionalAggregate>, ghost visited: seq<Visit>)
    requires Holds(windows, key, rs) && forall region :: region in capacities ==> capacities[region] >= 0.0
    ensures Visits(visited, windows, ReadyKeys(windows, cur)) && AllCounted(visited)
    ensures Reported(published, published.Keys) == (|ReadyKeys(windows, cur)|, Sum(Averages(visited)))
    ensures AllPublished(published, visited, capacities)
    ensures forall i :: 0 <= i < |visited| ==> ReadFrom(visited[i], key, rs)
  {
    HoldsSound(windows, key, rs);
    hide *;
    var data;
    data, visited := RegionalAggregates(windows, cur);
    RegionalSummary(windows, key, rs, cur, data, visited, capacities);
    published := Publish(data, capacities);
  }

  lemma RollsCount(d: RegionalData, vs: seq<Visit>)
    requires vs != [] && AllCounted(vs) && Rolls(d, vs)
    ensures d.meterCount > 0
  {
  }

  lemma VisitBounded(ws: WindowTable, key: BucketKey, rs: seq<Reading>, vs: seq<Visit>, keys: set<(string, string)>,
                     v: Visit)
    requires Holds(ws, key, rs) && Visits(vs, ws, keys) && v in vs && Counted(v.window)
    ensures Average(v.window) <= v.window.stats.maxPower
  {
    hide Average, Fold, Select;
    assert HoldsAt(ws, key, rs, v.bucket, v.window.meterId);
    AverageBelowMax(Select(rs, key, v.bucket, v.window.meterId), v.window.meterId);
  }
}

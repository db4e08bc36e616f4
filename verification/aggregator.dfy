// AggregatorService: incremental 1-minute and 15-minute windows, the rows collected from them,
// and the clearing of flushed buckets.

module Aggregator {
  import opened Text
  import opened IsoTime
  import opened Windows

  function Minute(offset: int): BucketKey {
    t => Key1(t, offset)
  }

  function Quarter(offset: int): BucketKey {
    t => Key15(t, offset)
  }

  // ---------------------------------------------------------------- rows

  /** One row of aggregates_1m or aggregates_15m; windowStart is the bucket key. */
  datatype Aggregate = Aggregate(meterId: string, region: string, windowStart: string, avgPowerKw: real,
                                 maxPowerKw: real, minPowerKw: Num, energyKwhSum: real, voltageAvg: real,
                                 currentAvg: Num, readingCount: int)

  function RowOf(bucket: string, w: Window): Aggregate
    requires w.stats.count > 0
  {
    var s := w.stats;
    Aggregate(w.meterId, w.region, bucket, s.powerSum / s.count as real, s.maxPower,
              if s.minPower == PosInf then Fin(0.0) else s.minPower, s.energySum,
              if s.voltageCount > 0 then s.voltageSum / s.voltageCount as real else 0.0,
              if s.currentCount > 0 then PerCount(s.currentSum, s.currentCount) else Fin(0.0),
              s.count)
  }

  /** What the columns of a row say about the readings it stands for; a current is a number unless a voltage is 0. */
  ghost predicate Summarizes(row: Aggregate, sel: seq<Reading>) {
    && sel != [] && row.region == sel[|sel| - 1].region && row.readingCount == |sel|
    && MeanOf(row.avgPowerKw, Powers(sel)) && GreatestOrZero(row.maxPowerKw, Powers(sel))
    && row.minPowerKw.Fin? && Least(row.minPowerKw.v, Powers(sel))
    && row.energyKwhSum == Sum(Energies(sel)) && MeanOf(row.voltageAvg, Voltages(sel))
    && (row.currentAvg.Fin? <==> !AnyZeroVoltage(sel))
    && (row.currentAvg.Fin? ==> MeanOf(row.currentAvg.v, Currents(sel)))
    && (row.currentAvg.NaN? <==> AnyStalled(sel, 0) || (AnyStalled(sel, 1) && AnyStalled(sel, -1)))
    && (row.currentAvg.PosInf? ==> AnyStalled(sel, 1)) && (row.currentAvg.NegInf? ==> AnyStalled(sel, -1))
  }

  lemma MeanIs(x: real, xs: seq<real>)
    requires xs != []
    ensures MeanOf(x / |xs| as real, xs) <==> x == Sum(xs)
  {
    hide Sum;
    var n := |xs| as real;
    assert x / n * n == x;
  }

  lemma RowColumns(bucket: string, w: Window)
    requires w.stats.count > 0
    ensures var s, row := w.stats, RowOf(bucket, w);
      && RowKey(row) == (w.meterId, bucket) && row.region == w.region && row.readingCount == s.count
      && row.avgPowerKw == s.powerSum / s.count as real && row.maxPowerKw == s.maxPower
      && (s.minPower.Fin? ==> row.minPowerKw == s.minPower) && row.energyKwhSum == s.energySum
      && row.voltageAvg == (if s.voltageCount > 0 then s.voltageSum / s.voltageCount as real else 0.0)
      && row.currentAvg == if s.currentCount > 0 then PerCount(s.currentSum, s.currentCount) else Fin(0.0)
  {
  }

  /** The row of the window that folds some readings says what they amount to. */
  lemma RowSummarizes(sel: seq<Reading>, bucket: string, meter: string)
    requires sel != []
    ensures WindowOf(sel, meter).stats.count > 0
    ensures var row := RowOf(bucket, WindowOf(sel, meter)); RowKey(row) == (meter, bucket) && Summarizes(row, sel)
  {
    FoldSums(sel);
    FoldExtremes(sel);
    FoldStalled(sel);
    RowColumns(bucket, WindowOf(sel, meter));
    MeanIs(Fold(sel).powerSum, Powers(sel));
    if Voltages(sel) != [] {
      MeanIs(Fold(sel).voltageSum, Voltages(sel));
    }
    CurrentMean(sel);
    hide RowOf, Fold, Sum, Powers, Energies, Voltages, Currents, AnyZeroVoltage, AnyStalled, MeanOf, Least;
  }

  lemma CurrentMean(sel: seq<Reading>)
    ensures var s := Fold(sel);
      var mean := if s.currentCount > 0 then PerCount(s.currentSum, s.currentCount) else Fin(0.0);
      && (mean.Fin? <==> !AnyZeroVoltage(sel)) && (mean.Fin? ==> MeanOf(mean.v, Currents(sel)))
      && (mean.NaN? <==> s.currentSum.NaN?) && (mean.PosInf? <==> s.currentSum.PosInf?)
      && (mean.NegInf? <==> s.currentSum.NegInf?)
  {
    FoldSums(sel);
    NoVoltages(sel);
    if !AnyZeroVoltage(sel) {
      CurrentsCount(sel);
      if Currents(sel) != [] {
        MeanIs(Fold(sel).currentSum.v, Currents(sel));
      }
    }
    hide Fold, Sum, Powers, Energies, Voltages, Currents, AnyZeroVoltage;
  }

  lemma {:induction false} NoVoltages(sel: seq<Reading>)
    ensures Voltages(sel) == [] ==> !AnyZeroVoltage(sel)
  {
    if sel != [] {
      ZeroVoltageSnoc(sel);
      hide AnyZeroVoltage;
      NoVoltages(sel[..|sel| - 1]);
    }
  }

  /** Each row says what the readings of its meter and bucket amount to. */
  ghost predicate AllSummarize(rows: seq<Aggregate>, key: BucketKey, rs: seq<Reading>) {
    forall i :: 0 <= i < |rows| ==> Summarizes(rows[i], Select(rs, key, rows[i].windowStart, rows[i].meterId))
  }

  lemma ListedSummarize(rows: seq<Aggregate>, ws: WindowTable, key: BucketKey, rs: seq<Reading>, cur: string)
    requires Holds(ws, key, rs) && Sound(ws) && ListsReady(rows, ws, cur)
    ensures AllSummarize(rows, key, rs)
  {
    hide RowOf, Fold, Select, Summarizes, LexLess;
    forall i | 0 <= i < |rows|
      ensures Summarizes(rows[i], Select(rs, key, rows[i].windowStart, rows[i].meterId))
    {
      var (m, b) := RowKey(rows[i]);
      assert HoldsAt(ws, key, rs, b, m);
      RowSummarizes(Select(rs, key, b, m), b, m);
    }
  }

  predicate Ready(ws: WindowTable, cur: string, bucket: string, meter: string) {
    Has(ws, bucket, meter) && LexLess(bucket, cur)
  }

  /** The key under which a row is stored: (meter_id, window_start). */
  function RowKey(a: Aggregate): (string, string) {
    (a.meterId, a.windowStart)
  }

  /** Every window counts at least one reading and carries its own meter id. */
  ghost predicate Sound(ws: WindowTable) {
    forall b, m :: Has(ws, b, m) ==> ws[b][m].meterId == m && ws[b][m].stats.count > 0
  }

  lemma HoldsSound(ws: WindowTable, key: BucketKey, rs: seq<Reading>)
    requires Holds(ws, key, rs)
    ensures Sound(ws)
  {
    hide Fold, Select;
    forall b, m | Has(ws, b, m) ensures ws[b][m].meterId == m && ws[b][m].stats.count > 0 {
      assert HoldsAt(ws, key, rs, b, m);
      FoldSums(Select(rs, key, b, m));
    }
  }

  /** rows lists each window named by `keys`, a set of (meter, bucket), exactly once. */
  ghost predicate Lists(rows: seq<Aggregate>, ws: WindowTable, keys: set<(string, string)>)
    requires Sound(ws)
  {
    && (forall i :: 0 <= i < |rows| ==> var k := RowKey(rows[i]);
          k in keys && Has(ws, k.1, k.0) && rows[i] == RowOf(k.1, ws[k.1][k.0]))
    && (forall k :: k in keys ==> exists i :: 0 <= i < |rows| && RowKey(rows[i]) == k)
    && (forall i, j :: 0 <= i < j < |rows| ==> RowKey(rows[i]) != RowKey(rows[j]))
  }

  ghost predicate ListsReady(rows: seq<Aggregate>, ws: WindowTable, cur: string)
    requires Sound(ws)
  {
    Lists(rows, ws, ReadyKeys(ws, cur))
  }

  ghost function ReadyKeys(ws: WindowTable, cur: string): set<(string, string)> {
    set b, m | b in ws && m in ws[b] && LexLess(b, cur) :: (m, b)
  }

  // ---------------------------------------------------------------- clearing

  function Unflushed(ws: WindowTable, cur: string): WindowTable {
    map b | b in ws && !LexLess(b, cur) :: ws[b]
  }

  /** The readings whose bucket survives a clear at `cur`. */
  function Kept(rs: seq<Reading>, key: BucketKey, cur: string): seq<Reading> {
    if rs == [] then []
    else
      var last := rs[|rs| - 1];
      Kept(rs[..|rs| - 1], key, cur) +
      if last.timestamp.Some? && LexLess(key(last.timestamp.value), cur) then [] else [last]
  }

  lemma {:induction false} SelectKept(rs: seq<Reading>, key: BucketKey, cur: string, b: string, m: string)
    ensures Select(Kept(rs, key, cur), key, b, m) == if LexLess(b, cur) then [] else Select(rs, key, b, m)
  {
    if rs != [] {
      hide LexLess;
      var init, last := rs[..|rs| - 1], rs[|rs| - 1];
      SelectKept(init, key, cur, b, m);
      SelectSnoc(Kept(init, key, cur), last, key, b, m);
      assert Kept(init, key, cur) + [] == Kept(init, key, cur);
    }
  }

  /** Clearing keeps the surviving windows the folds of exactly the readings of surviving buckets. */
  lemma ClearHolds(ws: WindowTable, key: BucketKey, rs: seq<Reading>, cur: string)
    requires Holds(ws, key, rs)
    ensures Holds(Unflushed(ws, cur), key, Kept(rs, key, cur))
  {
    hide Fold, Select, Kept, LexLess;
    forall b, m ensures HoldsAt(Unflushed(ws, cur), key, Kept(rs, key, cur), b, m) {
      assert HoldsAt(ws, key, rs, b, m);
      SelectKept(rs, key, cur, b, m);
    }
  }

  // ---------------------------------------------------------------- composition of windows

  function StatsAt(ws: WindowTable, bucket: string, m: string): Stats {
    if Has(ws, bucket, m) then ws[bucket][m].stats else EMPTY
  }

  function MergeBuckets(ws: WindowTable, buckets: seq<string>, m: string): Stats {
    if buckets == [] then EMPTY
    else Merge(MergeBuckets(ws, buckets[..|buckets| - 1], m), StatsAt(ws, buckets[|buckets| - 1], m))
  }

  /** reading count times average power, summed over the buckets */
  function WeightedPower(ws: WindowTable, buckets: seq<string>, m: string): real
    requires Sound(ws)
  {
    if buckets == [] then 0.0
    else
      var b := buckets[|buckets| - 1];
      WeightedPower(ws, buckets[..|buckets| - 1], m) +
      if Has(ws, b, m) then ws[b][m].stats.count as real * RowOf(b, ws[b][m]).avgPowerKw else 0.0
  }

  ghost predicate DatedInRange(rs: seq<Reading>) {
    forall i :: 0 <= i < |rs| && rs[i].timestamp.Some? ==> FourDigitYear(rs[i].timestamp.value)
  }

  /** A bucket's readings are those of a span of time when its key picks out that span. */
  lemma {:induction false} SelectIsSpan(rs: seq<Reading>, key: BucketKey, bucket: string, m: string, lo: int, hi: int)
    requires forall i :: 0 <= i < |rs| && rs[i].timestamp.Some? ==>
      (key(rs[i].timestamp.value) == bucket <==> lo <= rs[i].timestamp.value < hi)
    ensures Select(rs, key, bucket, m) == Span(rs, m, lo, hi)
  {
    if rs != [] {
      var init := rs[..|rs| - 1];
      assert forall i :: 0 <= i < |init| ==> init[i] == rs[i];
      SelectIsSpan(init, key, bucket, m, lo, hi);
    }
  }

  lemma StatsAtIsFold(ws: WindowTable, key: BucketKey, rs: seq<Reading>, bucket: string, m: string)
    requires Holds(ws, key, rs)
    ensures StatsAt(ws, bucket, m) == Fold(Select(rs, key, bucket, m))
  {
    hide Select;
    assert HoldsAt(ws, key, rs, bucket, m);
    FoldNone();
  }

  lemma MinuteKeyPicks(t: int, b: int, offset: int)
    requires FourDigitYear(t) && FourDigitYear(b) && b % MINUTE_MS == 0
    ensures Key1(t, offset) == Iso(b) <==> b <= t < b + MINUTE_MS
  {
    hide Iso, FourDigitYear;
    Bucket1IsUtcMinute(t, offset);
    BucketsInRange(t);
    IsoOrder(Bucket1(t, offset), b);
    SameMinute(t, b);
  }

  lemma SameMinute(t: int, b: int)
    requires b % MINUTE_MS == 0
    ensures t / MINUTE_MS * MINUTE_MS == b <==> b <= t < b + MINUTE_MS
  {
    var k := b / MINUTE_MS;
    assert b == k * MINUTE_MS;
    if b <= t < b + MINUTE_MS {
      assert (k * MINUTE_MS + (t - b)) / MINUTE_MS == k;
    }
  }

  lemma QuarterKeyPicks(t: int, w: int, offset: int)
    requires offset % 15 == 0 && FourDigitYear(t) && FourDigitYear(w) && Bucket15(w, offset) == w
    ensures Key15(t, offset) == Iso(w) <==> w <= t < w + QUARTER_MS
  {
    hide Iso, FourDigitYear;
    AlignedOffset(offset);
    assert Bucket15(t, offset) == Bucket15(t, 0) && Bucket15(w, offset) == Bucket15(w, 0);
    hide Bucket15;
    Bucket15IsLocalQuarter(t, offset);
    Bucket15IsLocalQuarter(t, 0);
    BucketsInRange(t);
    IsoOrder(Bucket15(t, 0), w);
    if w <= t < w + QUARTER_MS {
      SameQuarter(t, w, offset);
    }
  }

  lemma MinuteFold(ws: WindowTable, rs: seq<Reading>, offset: int, b: int, m: string)
    requires Holds(ws, Minute(offset), rs) && DatedInRange(rs)
    requires FourDigitYear(b) && b % MINUTE_MS == 0
    ensures StatsAt(ws, Iso(b), m) == Fold(Span(rs, m, b, b + MINUTE_MS))
  {
    hide Iso, Fold, FourDigitYear, Select, Span;
    forall i | 0 <= i < |rs| && rs[i].timestamp.Some?
      ensures Minute(offset)(rs[i].timestamp.value) == Iso(b) <==> b <= rs[i].timestamp.value < b + MINUTE_MS
    {
      MinuteKeyPicks(rs[i].timestamp.value, b, offset);
    }
    SelectIsSpan(rs, Minute(offset), Iso(b), m, b, b + MINUTE_MS);
    StatsAtIsFold(ws, Minute(offset), rs, Iso(b), m);
  }

  lemma {:induction false} MinutesMerge(ws: WindowTable, rs: seq<Reading>, offset: int, start: int, m: string, n: nat)
    requires Holds(ws, Minute(offset), rs) && DatedInRange(rs)
    requires start % MINUTE_MS == 0 && YEAR_0000 <= start && start + n * MINUTE_MS <= YEAR_10000
    ensures MergeBuckets(ws, MinuteKeys(start, n), m) == MergeRun(rs, m, start, MINUTE_MS, n)
  {
    hide Iso, Fold, Merge, FourDigitYear, Span, Holds, DatedInRange, StatsAt, MergeBuckets, MinuteKeys;
    NoMinutes(ws, start, m);
    if n > 0 {
      MinutesMerge(ws, rs, offset, start, m, n - 1);
      var b := start + (n - 1) * MINUTE_MS;
      FourDigitRange(b);
      MinuteFold(ws, rs, offset, b, m);
      OneMinuteMore(ws, start, m, n);
      assert b + MINUTE_MS == start + n * MINUTE_MS;
    }
  }

  lemma NoMinutes(ws: WindowTable, start: int, m: string)
    ensures MergeBuckets(ws, MinuteKeys(start, 0), m) == EMPTY
  {
  }

  lemma OneMinuteMore(ws: WindowTable, start: int, m: string, n: nat)
    requires n > 0
    ensures MergeBuckets(ws, MinuteKeys(start, n), m) ==
      Merge(MergeBuckets(ws, MinuteKeys(start, n - 1), m), StatsAt(ws, Iso(start + (n - 1) * MINUTE_MS), m))
  {
    hide Iso, Merge, StatsAt;
    var keys := MinuteKeys(start, n);
    assert keys[..n - 1] == MinuteKeys(start, n - 1);
  }

  lemma QuarterFold(ws: WindowTable, rs: seq<Reading>, offset: int, w: int, m: string)
    requires Holds(ws, Quarter(offset), rs) && DatedInRange(rs)
    requires offset % 15 == 0 && FourDigitYear(w) && Bucket15(w, offset) == w
    ensures StatsAt(ws, Iso(w), m) == Fold(Span(rs, m, w, w + QUARTER_MS))
  {
    hide Iso, Fold, FourDigitYear, Select, Span, Bucket15;
    forall i | 0 <= i < |rs| && rs[i].timestamp.Some?
      ensures Quarter(offset)(rs[i].timestamp.value) == Iso(w) <==> w <= rs[i].timestamp.value < w + QUARTER_MS
    {
      QuarterKeyPicks(rs[i].timestamp.value, w, offset);
    }
    SelectIsSpan(rs, Quarter(offset), Iso(w), m, w, w + QUARTER_MS);
    StatsAtIsFold(ws, Quarter(offset), rs, Iso(w), m);
  }

  /** Every 15-minute window is the merge of the 1-minute windows of its fifteen minutes, for any
      arrival order of the readings. */
  lemma QuarterIsMergeOfMinutes(ws1: WindowTable, ws15: WindowTable, rs: seq<Reading>, offset: int, w: int, m: string)
    requires Holds(ws1, Minute(offset), rs) && Holds(ws15, Quarter(offset), rs) && DatedInRange(rs)
    requires offset % 15 == 0 && FourDigitYear(w) && Bucket15(w, offset) == w
    ensures StatsAt(ws15, Iso(w), m) == MergeBuckets(ws1, MinuteKeys(w, 15), m)
  {
    hide Iso, Fold, Merge, FourDigitYear, Span, Bucket15, MergeRun, MinuteKeys, MergeBuckets, StatsAt, Holds,
      DatedInRange;
    QuarterFold(ws15, rs, offset, w, m);
    QuarterStartsOnMinute(w, offset);
    FourDigitRange(w);
    QuarterFits(w, offset);
    MinutesMerge(ws1, rs, offset, w, m, 15);
    RunIsWhole(rs, m, w, MINUTE_MS, 15);
  }

  lemma QuarterFits(w: int, offset: int)
    requires offset % 15 == 0 && Bucket15(w, offset) == w && YEAR_0000 <= w < YEAR_10000
    ensures w + 15 * MINUTE_MS <= YEAR_10000
  {
    AlignedOffset(offset);
    assert Bucket15(w, 0) == w;
    Bucket15IsLocalQuarter(w, 0);
    assert YEAR_10000 == 2932897 * 96 * QUARTER_MS;
  }

  lemma CountTimesAverage(bucket: string, w: Window)
    requires w.stats.count > 0
    ensures w.stats.count as real * RowOf(bucket, w).avgPowerKw == w.stats.powerSum
  {
    var n, p := w.stats.count as real, w.stats.powerSum;
    assert n * (p / n) == p;
  }

  lemma {:induction false} WeightedIsSum(ws: WindowTable, buckets: seq<string>, m: string)
    requires Sound(ws)
    ensures MergeBuckets(ws, buckets, m).powerSum == WeightedPower(ws, buckets, m)
  {
    hide RowOf, Min, Max, Add;
    if buckets != [] {
      WeightedIsSum(ws, buckets[..|buckets| - 1], m);
      var b := buckets[|buckets| - 1];
      if Has(ws, b, m) {
        CountTimesAverage(b, ws[b][m]);
      }
    }
  }

  /** The 15-minute average is the count-weighted mean of the 1-minute averages. */
  lemma QuarterAverage(ws1: WindowTable, ws15: WindowTable, rs: seq<Reading>, offset: int, w: int, m: string)
    requires Holds(ws1, Minute(offset), rs) && Holds(ws15, Quarter(offset), rs) && DatedInRange(rs)
    requires offset % 15 == 0 && FourDigitYear(w) && Bucket15(w, offset) == w && Has(ws15, Iso(w), m)
    ensures Sound(ws1) && Sound(ws15)
    ensures var row, minutes := RowOf(Iso(w), ws15[Iso(w)][m]), MinuteKeys(w, 15);
      && row.readingCount == MergeBuckets(ws1, minutes, m).count
      && row.avgPowerKw * row.readingCount as real == WeightedPower(ws1, minutes, m)
  {
    hide Iso, Fold, Merge, FourDigitYear, Bucket15, MinuteKeys, MergeBuckets, WeightedPower, Holds;
    HoldsSound(ws1, Minute(offset), rs);
    HoldsSound(ws15, Quarter(offset), rs);
    QuarterIsMergeOfMinutes(ws1, ws15, rs, offset, w, m);
    WeightedIsSum(ws1, MinuteKeys(w, 15), m);
    var s := ws15[Iso(w)][m].stats;
    assert s.powerSum / s.count as real * s.count as real == s.powerSum;
  }

  // ---------------------------------------------------------------- the service

  class AggregatorService {
    const offset: int
    var windows1m: WindowTable
    var windows15m: WindowTable
    ghost var live1m: seq<Reading>
    ghost var live15m: seq<Reading>

    ghost predicate Valid()
      reads this
    {
      Holds(windows1m, Minute(offset), live1m) && Holds(windows15m, Quarter(offset), live15m)
    }

    constructor (offset: int)
      ensures Valid() && this.offset == offset
      ensures windows1m == map[] && windows15m == map[] && live1m == [] && live15m == []
    {
      this.offset := offset;
      windows1m, windows15m := map[], map[];
      live1m, live15m := [], [];
    }

    method ProcessReading(r: Reading)
      requires Valid()
      modifies this
      ensures Valid() && live1m == old(live1m) + [r] && live15m == old(live15m) + [r]
      ensures r.timestamp.None? ==> windows1m == old(windows1m) && windows15m == old(windows15m)
      ensures r.timestamp.Some? ==> windows1m == UpdateTable(old(windows1m), Minute(offset)(r.timestamp.value), r)
      ensures r.timestamp.Some? ==> windows15m == UpdateTable(old(windows15m), Quarter(offset)(r.timestamp.value), r)
    {
      hide Iso, Holds, UpdateTable;
      if r.timestamp.Some? {
        UpdateHolds(windows1m, Minute(offset), live1m, r);
        UpdateHolds(windows15m, Quarter(offset), live15m, r);
        windows1m := UpdateWindow(windows1m, Minute(offset)(r.timestamp.value), r);
        windows15m := UpdateWindow(windows15m, Quarter(offset)(r.timestamp.value), r);
      } else {
        UndatedHolds(windows1m, Minute(offset), live1m, r);
        UndatedHolds(windows15m, Quarter(offset), live15m, r);
      }
      live1m, live15m := live1m + [r], live15m + [r];
    }

    static method UpdateWindow(windows: WindowTable, bucket: string, r: Reading) returns (updated: WindowTable)
      ensures updated == UpdateTable(windows, bucket, r)
    {
      updated := windows;
      if bucket !in updated {
        updated := updated[bucket := map[]];
      }
      var bucketMap := updated[bucket];
      assert bucketMap == BucketIn(windows, bucket);
      if r.meterId !in bucketMap {
        bucketMap := bucketMap[r.meterId := Window(r.meterId, r.region, EMPTY)];
      }
      var window := bucketMap[r.meterId];
      bucketMap := bucketMap[r.meterId := window.(region := r.region, stats := Update(window.stats, r))];
      assert bucketMap == BucketIn(windows, bucket)[r.meterId := Touched(windows, bucket, r)];
      updated := updated[bucket := bucketMap];
    }

    /** getReadyAggregates1m at instant `now` */
    method GetReadyAggregates1m(now: int) returns (rows: seq<Aggregate>)
      requires Valid()
      ensures Sound(windows1m) && ListsReady(rows, windows1m, Minute(offset)(now))
      ensures AllSummarize(rows, Minute(offset), live1m)
    {
      rows := CollectReady(windows1m, Minute(offset)(now), Minute(offset), live1m);
    }

    /** getReadyAggregates15m at instant `now` */
    method GetReadyAggregates15m(now: int) returns (rows: seq<Aggregate>)
      requires Valid()
      ensures Sound(windows15m) && ListsReady(rows, windows15m, Quarter(offset)(now))
      ensures AllSummarize(rows, Quarter(offset), live15m)
    {
      rows := CollectReady(windows15m, Quarter(offset)(now), Quarter(offset), live15m);
    }

    /** clearFlushedWindows1m at instant `now` */
    method ClearFlushedWindows1m(now: int) returns (cleared: nat)
      requires Valid()
      modifies this
      ensures Valid()
      ensures windows1m == Unflushed(old(windows1m), Minute(offset)(now))
      ensures live1m == Kept(old(live1m), Minute(offset), Minute(offset)(now))
      ensures windows15m == old(windows15m) && live15m == old(live15m)
      ensures cleared == |old(windows1m)| - |windows1m|
    {
      hide Iso, Holds, Kept;
      ClearHolds(windows1m, Minute(offset), live1m, Minute(offset)(now));
      live1m := Kept(live1m, Minute(offset), Minute(offset)(now));
      windows1m, cleared := DropReady(windows1m, Minute(offset)(now));
    }

    /** clearFlushedWindows15m at instant `now` */
    method ClearFlushedWindows15m(now: int) returns (cleared: nat)
      requires Valid()
      modifies this
      ensures Valid()
      ensures windows15m == Unflushed(old(windows15m), Quarter(offset)(now))
      ensures live15m == Kept(old(live15m), Quarter(offset), Quarter(offset)(now))
      ensures windows1m == old(windows1m) && live1m == old(live1m)
      ensures cleared == |old(windows15m)| - |windows15m|
    {
      hide Iso, Holds, Kept;
      ClearHolds(windows15m, Quarter(offset), live15m, Quarter(offset)(now));
      live15m := Kept(live15m, Quarter(offset), Quarter(offset)(now));
      windows15m, cleared := DropReady(windows15m, Quarter(offset)(now));
    }
  }

  /** The collecting loops of getReadyAggregates1m and getReadyAggregates15m. */
  method CollectReady(windows: WindowTable, cur: string, ghost key: BucketKey, ghost rs: seq<Reading>)
    returns (rows: seq<Aggregate>)
    requires Holds(windows, key, rs)
    ensures Sound(windows) && ListsReady(rows, windows, cur) && AllSummarize(rows, key, rs)
  {
    HoldsSound(windows, key, rs);
    ListsNothing(windows);
    hide RowOf, LexLess, Holds, AllSummarize, Lists;
    rows := [];
    var buckets := windows.Keys;
    ghost var seen: set<(string, string)> := {};
    while buckets != {}
      invariant buckets <= windows.Keys
      invariant Lists(rows, windows, seen)
      invariant forall m, b :: (m, b) in seen <==> b in windows && b !in buckets && m in windows[b] && LexLess(b, cur)
      decreases |buckets|
    {
      var bucket :| bucket in buckets;
      buckets := buckets - {bucket};
      if LexLess(bucket, cur) {
        var meters := windows[bucket].Keys;
        while meters != {}
          invariant meters <= windows[bucket].Keys
          invariant Lists(rows, windows, seen)
          invariant forall m, b :: (m, b) in seen <==>
            b in windows && b !in buckets && m in windows[b] && LexLess(b, cur) && !(b == bucket && m in meters)
          decreases |meters|
        {
          var meterId :| meterId in meters;
          meters := meters - {meterId};
          assert Has(windows, bucket, meterId);
          RowAdded(rows, windows, seen, bucket, meterId);
          rows := rows + [RowOf(bucket, windows[bucket][meterId])];
          seen := seen + {(meterId, bucket)};
        }
      }
    }
    assert seen == ReadyKeys(windows, cur);
    ListedSummarize(rows, windows, key, rs, cur);
  }

  lemma ListsNothing(ws: WindowTable)
    requires Sound(ws)
    ensures Lists([], ws, {})
  {
  }

  lemma RowAdded(rows: seq<Aggregate>, ws: WindowTable, seen: set<(string, string)>, bucket: string, meterId: string)
    requires Sound(ws) && Lists(rows, ws, seen) && Has(ws, bucket, meterId) && (meterId, bucket) !in seen
    ensures Lists(rows + [RowOf(bucket, ws[bucket][meterId])], ws, seen + {(meterId, bucket)})
  {
    var row := RowOf(bucket, ws[bucket][meterId]);
    assert RowKey(row) == (meterId, bucket);
    hide RowOf;
    var rows' := rows + [row];
    forall k | k in seen + {(meterId, bucket)} ensures exists i :: 0 <= i < |rows'| && RowKey(rows'[i]) == k {
      if k in seen {
        var i :| 0 <= i < |rows| && RowKey(rows[i]) == k;
        assert rows'[i] == rows[i];
      } else {
        assert rows'[|rows|] == row;
      }
    }
    assert forall i :: 0 <= i < |rows| ==> rows'[i] == rows[i];
  }

  /** The table after the deleting loop has visited every bucket but those in `ahead`. */
  function Remaining(ws: WindowTable, cur: string, ahead: set<string>): WindowTable {
    map b | b in ws && (b in ahead || !LexLess(b, cur)) :: ws[b]
  }

  /** The deleting loops of clearFlushedWindows1m and clearFlushedWindows15m. */
  method DropReady(windows: WindowTable, cur: string) returns (kept: WindowTable, cleared: nat)
    ensures kept == Unflushed(windows, cur)
    ensures cleared == |windows| - |kept|
  {
    hide LexLess;
    kept, cleared := windows, 0;
    var buckets := windows.Keys;
    assert Remaining(windows, cur, buckets) == windows;
    while buckets != {}
      invariant buckets <= windows.Keys
      invariant kept == Remaining(windows, cur, buckets)
      invariant cleared == |windows| - |kept|
      decreases |buckets|
    {
      var bucket :| bucket in buckets;
      buckets := buckets - {bucket};
      if LexLess(bucket, cur) {
        kept := kept - {bucket};
        cleared := cleared + 1;
      }
    }
    assert Remaining(windows, cur, {}) == Unflushed(windows, cur);
  }
}

// Whole runs of the flush protocol: when every window and row stays exact, how many readings are
// accounted for between flushes, and runs that lose readings.

module FlushRuns {
  import opened Text
  import opened Windows
  import opened Aggregator
  import opened Flush

  function Run(s: State, key: BucketKey, steps: seq<Step>): State
    decreases |steps|
  {
    if steps == [] then s else Run(Next(s, key, steps[0]), key, steps[1..])
  }

  ghost predicate EnabledRun(s: State, key: BucketKey, steps: seq<Step>)
    decreases |steps|
  {
    steps != [] ==> Enabled(s, steps[0]) && EnabledRun(Next(s, key, steps[0]), key, steps[1..])
  }

  ghost predicate SafeRun(s: State, key: BucketKey, steps: seq<Step>)
    decreases |steps|
  {
    steps != [] ==> Safe(s, key, steps[0]) && SafeRun(Next(s, key, steps[0]), key, steps[1..])
  }

  lemma InitialInv(key: BucketKey)
    ensures Inv(INITIAL, key)
  {
  }

  /** Over any interleaving of deliveries and flush steps, whatever the outcome of each upsert:
      all states along the run keep every window and row the exact fold of its readings if and
      only if every step is safe. */
  lemma {:induction false} RunExact(s: State, key: BucketKey, steps: seq<Step>)
    requires Inv(s, key) && EnabledRun(s, key, steps)
    ensures SafeRun(s, key, steps) <==> forall n :: 0 <= n <= |steps| ==> Faithful(Run(s, key, steps[..n]), key)
    ensures SafeRun(s, key, steps) ==> Inv(Run(s, key, steps), key)
    decreases |steps|
  {
    hide Enabled, Safe, Next, Inv, Faithful;
    assert Faithful(s, key) by { InvFaithful(s, key); }
    if steps != [] {
      var s' := Next(s, key, steps[0]);
      StepExact(s, key, steps[0]);
      assert steps[..1] == [steps[0]] && Run(s, key, steps[..1]) == s';
      if Safe(s, key, steps[0]) {
        RunExact(s', key, steps[1..]);
        forall n | 0 < n <= |steps| ensures Run(s, key, steps[..n]) == Run(s', key, steps[1..][..n - 1]) {
          assert steps[..n][1..] == steps[1..][..n - 1];
        }
        forall n | 0 <= n <= |steps[1..]| ensures Run(s', key, steps[1..][..n]) == Run(s, key, steps[..n + 1]) {
          assert steps[..n + 1][1..] == steps[1..][..n];
        }
      }
    }
  }

  lemma InvFaithful(s: State, key: BucketKey)
    requires Inv(s, key)
    ensures Faithful(s, key)
  {
  }

  // ---------------------------------------------------------------- a discipline that suffices

  /** Sufficient conditions on the environment: no reading for a persisted window; no reading for a
      closed bucket between the collect that persists and its clear; the current bucket the same at
      collect and clear; every upsert that applies is acknowledged. */
  ghost predicate Disciplined(s: State, key: BucketKey, step: Step) {
    match step
    case Deliver(r) =>
      r.timestamp.Some? ==>
        && (r.meterId, key(r.timestamp.value)) !in s.table
        && (s.phase.Upserted? || s.phase.Published? ==> !LexLess(key(r.timestamp.value), s.phase.cur))
    case UpsertApplied => s.phase.Collected? ==> forall b :: b in s.phase.touched ==> !LexLess(b, s.phase.cur)
    case UpsertUnacknowledged => false
    case Clear(cur) => s.phase.Published? ==> cur == s.phase.cur
    case _ => true
  }

  ghost predicate DisciplinedRun(s: State, key: BucketKey, steps: seq<Step>)
    decreases |steps|
  {
    steps != [] ==> Disciplined(s, key, steps[0]) && DisciplinedRun(Next(s, key, steps[0]), key, steps[1..])
  }

  predicate InMemory(s: State, k: (string, string)) {
    Has(s.windows, k.1, k.0)
  }

  /** Between flushes no window is both persisted and in memory; during a flush only those about to
      be cleared are. */
  ghost predicate Split(s: State) {
    match s.phase
    case Idle => forall k :: k in s.table ==> !InMemory(s, k)
    case Collected(batch, cur, touched) =>
      && (forall k :: k in s.table ==> !InMemory(s, k))
      && (forall i :: 0 <= i < |batch| ==> LexLess(RowKey(batch[i]).1, cur))
      && (forall b, m :: Ready(s.windows, cur, b, m) && b !in touched ==> ListedIn(batch, s.windows, b, m))
    case Upserted(cur) => Covered(s, cur)
    case Published(cur) => Covered(s, cur)
  }

  ghost predicate ListedIn(batch: seq<Aggregate>, ws: WindowTable, b: string, m: string) {
    Has(ws, b, m) &&
    exists i :: 0 <= i < |batch| && RowKey(batch[i]) == (m, b) && batch[i].readingCount == ws[b][m].stats.count
  }

  ghost predicate Covered(s: State, cur: string) {
    && (forall k :: k in s.table && InMemory(s, k) ==> LexLess(k.1, cur))
    && (forall b, m :: Ready(s.windows, cur, b, m) ==>
          (m, b) in s.table && s.table[(m, b)].readingCount == s.windows[b][m].stats.count)
  }

  lemma DisciplinedSafe(s: State, key: BucketKey, step: Step)
    requires Split(s) && Enabled(s, step) && Disciplined(s, key, step)
    ensures Safe(s, key, step)
  {
  }

  lemma DeliverSplits(s: State, key: BucketKey, r: Reading)
    requires Split(s) && Disciplined(s, key, Deliver(r))
    ensures Split(AfterDelivery(s, key, r))
  {
    hide LexLess, Update;
    if r.timestamp.Some? {
      var bucket := key(r.timestamp.value);
      var s' := AfterDelivery(s, key, r);
      forall b, m ensures Has(s'.windows, b, m) <==> Has(s.windows, b, m) || (b == bucket && m == r.meterId)
      ensures b != bucket && Has(s.windows, b, m) ==> s'.windows[b][m] == s.windows[b][m] {
      }
      assert forall k :: InMemory(s', k) <==> InMemory(s, k) || k == (r.meterId, bucket);
      if s.phase.Collected? {
        var cur := s.phase.cur;
        forall b, m | Ready(s'.windows, cur, b, m) && b !in s'.phase.touched
          ensures ListedIn(s.phase.batch, s'.windows, b, m)
        {
          assert b != bucket && Ready(s.windows, cur, b, m);
          assert ListedIn(s.phase.batch, s.windows, b, m);
        }
      }
    }
  }

  lemma CollectSplits(s: State, key: BucketKey, cur: string, rows: seq<Aggregate>)
    requires Split(s) && Enabled(s, Collect(cur, rows))
    ensures Split(Next(s, key, Collect(cur, rows)))
  {
    hide LexLess;
    if rows != [] {
      forall b, m | Ready(s.windows, cur, b, m) ensures ListedIn(rows, s.windows, b, m) {
        assert (m, b) in ReadyKeys(s.windows, cur);
        var i :| 0 <= i < |rows| && RowKey(rows[i]) == (m, b);
      }
    }
  }

  lemma UpsertSplits(s: State, key: BucketKey)
    requires Inv(s, key) && Split(s) && s.phase.Collected? && Disciplined(s, key, UpsertApplied)
    ensures Split(Next(s, key, UpsertApplied))
  {
    hide LexLess, UpsertAll, Snapshot, Faithful;
    var batch, cur := s.phase.batch, s.phase.cur;
    var s' := Next(s, key, UpsertApplied);
    forall k | k in s'.table && InMemory(s', k) ensures LexLess(k.1, cur) {
      UpsertLookup(s.table, batch, k);
    }
    forall b, m | Ready(s'.windows, cur, b, m)
      ensures (m, b) in s'.table && s'.table[(m, b)].readingCount == s'.windows[b][m].stats.count
    {
      assert ListedIn(batch, s.windows, b, m);
      UpsertLookup(s.table, batch, (m, b));
    }
  }

  lemma StepSplits(s: State, key: BucketKey, step: Step)
    requires Inv(s, key) && Split(s) && Enabled(s, step) && Disciplined(s, key, step)
    ensures Split(Next(s, key, step))
  {
    hide LexLess, Faithful, Snapshot, UpsertAll, AfterDelivery;
    match step
    case Deliver(r) => DeliverSplits(s, key, r);
    case Collect(cur, rows) => CollectSplits(s, key, cur, rows);
    case UpsertApplied => UpsertSplits(s, key);
    case Clear(cur) =>
      var s' := Next(s, key, step);
      forall k | k in s'.table ensures !InMemory(s', k) {
        assert InMemory(s', k) ==> InMemory(s, k) && !LexLess(k.1, cur);
      }
    case _ =>
  }

  lemma {:induction false} DisciplinedRunKeeps(s: State, key: BucketKey, steps: seq<Step>)
    requires Inv(s, key) && Split(s) && EnabledRun(s, key, steps) && DisciplinedRun(s, key, steps)
    ensures SafeRun(s, key, steps)
    ensures Inv(Run(s, key, steps), key) && Split(Run(s, key, steps))
    decreases |steps|
  {
    hide Inv, Split, Enabled, Disciplined, Safe, Next;
    if steps != [] {
      DisciplinedSafe(s, key, steps[0]);
      StepExact(s, key, steps[0]);
      StepSplits(s, key, steps[0]);
      DisciplinedRunKeeps(Next(s, key, steps[0]), key, steps[1..]);
    }
  }

  // ---------------------------------------------------------------- counting readings

  function Dated(log: seq<Reading>): nat {
    if log == [] then 0 else Dated(log[..|log| - 1]) + if log[|log| - 1].timestamp.Some? then 1 else 0
  }

  /** Readings delivered for the given (meter, bucket) keys. */
  ghost function Delivered(log: seq<Reading>, key: BucketKey, keys: set<(string, string)>): int {
    if keys == {} then 0
    else |Select(log, key, Pick(keys).1, Pick(keys).0)| + Delivered(log, key, keys - {Pick(keys)})
  }

  lemma {:induction false} DeliveredSnoc(log: seq<Reading>, r: Reading, key: BucketKey, keys: set<(string, string)>)
    ensures Delivered(log + [r], key, keys) == Delivered(log, key, keys) +
      if r.timestamp.Some? && (r.meterId, key(r.timestamp.value)) in keys then 1 else 0
  {
    hide Select;
    if keys != {} {
      var k := Pick(keys);
      SelectSnoc(log, r, key, k.1, k.0);
      DeliveredSnoc(log, r, key, keys - {k});
    }
  }

  lemma {:induction false} DeliveredNothing(key: BucketKey, keys: set<(string, string)>)
    ensures Delivered([], key, keys) == 0
  {
    if keys != {} {
      DeliveredNothing(key, keys - {Pick(keys)});
    }
  }

  lemma {:induction false} AllDelivered(log: seq<Reading>, key: BucketKey, keys: set<(string, string)>)
    requires forall i :: 0 <= i < |log| && log[i].timestamp.Some? ==>
      (log[i].meterId, key(log[i].timestamp.value)) in keys
    ensures Delivered(log, key, keys) == Dated(log)
  {
    if log == [] {
      DeliveredNothing(key, keys);
    } else {
      var init := log[..|log| - 1];
      assert log == init + [log[|log| - 1]];
      assert forall i :: 0 <= i < |init| ==> init[i] == log[i];
      AllDelivered(init, key, keys);
      DeliveredSnoc(init, log[|log| - 1], key, keys);
    }
  }

  /** sum of reading_count over the given rows */
  ghost function RowCounts(table: Table, keys: set<(string, string)>): int
    requires keys <= table.Keys
  {
    if keys == {} then 0
    else
      var k := Pick(keys);
      assert k in table.Keys;
      table[k].readingCount + RowCounts(table, keys - {k})
  }

  /** sum of the counts of the given windows in memory */
  ghost function WindowCounts(ws: WindowTable, keys: set<(string, string)>): int
    requires forall k :: k in keys ==> Has(ws, k.1, k.0)
  {
    if keys == {} then 0
    else
      var k := Pick(keys);
      assert Has(ws, k.1, k.0);
      ws[k.1][k.0].stats.count + WindowCounts(ws, keys - {k})
  }

  ghost function MemoryKeys(ws: WindowTable): set<(string, string)> {
    set b, m | b in ws && m in ws[b] :: (m, b)
  }

  lemma {:induction false} RowsDelivered(s: State, key: BucketKey, keys: set<(string, string)>)
    requires Faithful(s, key) && keys <= s.table.Keys && forall k :: k in keys ==> !InMemory(s, k)
    ensures RowCounts(s.table, keys) == Delivered(s.log, key, keys)
  {
    if keys != {} {
      hide Select, RowOf, WindowOf;
      var k := Pick(keys);
      assert FaithfulAt(s, key, k.1, k.0);
      RowsDelivered(s, key, keys - {k});
    }
  }

  lemma {:induction false} WindowsDelivered(s: State, key: BucketKey, keys: set<(string, string)>)
    requires Faithful(s, key) && forall k :: k in keys ==> Has(s.windows, k.1, k.0)
    ensures WindowCounts(s.windows, keys) == Delivered(s.log, key, keys)
  {
    hide Select, Fold;
    if keys != {} {
      var k := Pick(keys);
      assert FaithfulAt(s, key, k.1, k.0);
      FoldSums(Select(s.log, key, k.1, k.0));
      WindowsDelivered(s, key, keys - {k});
    }
  }

  lemma {:induction false} DeliveredUnion(log: seq<Reading>, key: BucketKey, a: set<(string, string)>,
                                          b: set<(string, string)>)
    requires a !! b
    ensures Delivered(log, key, a + b) == Delivered(log, key, a) + Delivered(log, key, b)
  {
    hide Select;
    if log == [] {
      DeliveredNothing(key, a + b);
      DeliveredNothing(key, a);
      DeliveredNothing(key, b);
    } else {
      var init, last := log[..|log| - 1], log[|log| - 1];
      assert log == init + [last];
      DeliveredUnion(init, key, a, b);
      DeliveredSnoc(init, last, key, a + b);
      DeliveredSnoc(init, last, key, a);
      DeliveredSnoc(init, last, key, b);
    }
  }

  lemma EveryReadingKept(s: State, key: BucketKey)
    requires Faithful(s, key)
    ensures forall i :: 0 <= i < |s.log| && s.log[i].timestamp.Some? ==>
      (s.log[i].meterId, key(s.log[i].timestamp.value)) in s.table.Keys + MemoryKeys(s.windows)
  {
    hide Select, RowOf, WindowOf;
    forall i | 0 <= i < |s.log| && s.log[i].timestamp.Some?
      ensures (s.log[i].meterId, key(s.log[i].timestamp.value)) in s.table.Keys + MemoryKeys(s.windows)
    {
      var b, m := key(s.log[i].timestamp.value), s.log[i].meterId;
      assert FaithfulAt(s, key, b, m);
      SelectHas(s.log, i, key, b, m);
    }
  }

  /** Conservation: after any disciplined run, whenever no flush is in flight, the persisted reading
      counts and the counts in memory together are the number of dated readings delivered. */
  lemma Conservation(key: BucketKey, steps: seq<Step>)
    requires EnabledRun(INITIAL, key, steps) && DisciplinedRun(INITIAL, key, steps)
    requires Run(INITIAL, key, steps).phase.Idle?
    ensures var s := Run(INITIAL, key, steps);
      && RowCounts(s.table, s.table.Keys) + WindowCounts(s.windows, MemoryKeys(s.windows)) == Dated(s.log)
      && (forall k :: k in s.table ==> Select(s.log, key, k.1, k.0) != [])
      && (forall k :: k in s.table ==> s.table[k] == FoldRow(Select(s.log, key, k.1, k.0), k.1, k.0))
      && (forall k :: k in s.table ==> RowKey(s.table[k]) == k && Summarizes(s.table[k], Select(s.log, key, k.1, k.0)))
  {
    hide Summarizes, Run, EnabledRun, DisciplinedRun, Snapshot, Delivered, RowCounts, WindowCounts, Dated, Select, RowOf,
         WindowOf;
    InitialInv(key);
    DisciplinedRunKeeps(INITIAL, key, steps);
    var s := Run(INITIAL, key, steps);
    RowsDelivered(s, key, s.table.Keys);
    WindowsDelivered(s, key, MemoryKeys(s.windows));
    DeliveredUnion(s.log, key, s.table.Keys, MemoryKeys(s.windows));
    EveryReadingKept(s, key);
    AllDelivered(s.log, key, s.table.Keys + MemoryKeys(s.windows));
    forall k | k in s.table
      ensures Select(s.log, key, k.1, k.0) != [] && s.table[k] == FoldRow(Select(s.log, key, k.1, k.0), k.1, k.0)
      ensures RowKey(s.table[k]) == k && Summarizes(s.table[k], Select(s.log, key, k.1, k.0))
    {
      assert FaithfulAt(s, key, k.1, k.0) && !InMemory(s, k);
      FoldRowSummarizes(Select(s.log, key, k.1, k.0), k.1, k.0);
    }
  }

  lemma {:induction false} RowCountsRemove(table: Table, keys: set<(string, string)>, k: (string, string))
    requires keys <= table.Keys && k in keys
    ensures RowCounts(table, keys) == table[k].readingCount + RowCounts(table, keys - {k})
  {
    var p := Pick(keys);
    if p != k {
      RowCountsRemove(table, keys - {p}, k);
      RowCountsRemove(table, keys - {k}, p);
      assert keys - {p} - {k} == keys - {k} - {p};
    }
  }

  lemma {:induction false} RowCountsMore(table: Table, a: set<(string, string)>, b: set<(string, string)>)
    requires a + b <= table.Keys && a !! b && forall k :: k in b ==> table[k].readingCount > 0
    ensures RowCounts(table, a + b) >= RowCounts(table, a)
    ensures RowCounts(table, a + b) == RowCounts(table, a) <==> b == {}
    decreases |b|
  {
    if b == {} {
      assert a + b == a;
    } else {
      var k := Pick(b);
      RowCountsRemove(table, a + b, k);
      assert a + b - {k} == a + (b - {k});
      RowCountsMore(table, a, b - {k});
    }
  }

  /** When every window and row is exact, adding persisted and in-memory counts gives the number of
      readings exactly when no window is both persisted and in memory; an upsert that applied but was
      reported as failed leaves such windows, and their rows are then counted twice. */
  lemma SumExact(s: State, key: BucketKey)
    requires Inv(s, key)
    ensures RowCounts(s.table, s.table.Keys) + WindowCounts(s.windows, MemoryKeys(s.windows)) == Dated(s.log)
      <==> forall k :: k in s.table ==> !InMemory(s, k)
  {
    hide Snapshot, Delivered, RowCounts, WindowCounts, Dated, Select, RowOf, WindowOf;
    var memory := MemoryKeys(s.windows);
    var both, only := s.table.Keys * memory, s.table.Keys - memory;
    RowsDelivered(s, key, only);
    WindowsDelivered(s, key, memory);
    DeliveredUnion(s.log, key, only, memory);
    EveryReadingKept(s, key);
    assert only + memory == s.table.Keys + memory && only + both == s.table.Keys;
    AllDelivered(s.log, key, only + memory);
    forall k | k in both ensures s.table[k].readingCount > 0 {
      SnapshotCounts(s.table[k], s.log, key);
    }
    RowCountsMore(s.table, only, both);
  }

  lemma SnapshotCounts(row: Aggregate, log: seq<Reading>, key: BucketKey)
    ensures Snapshot(row, log, key) ==> row.readingCount > 0
  {
    hide RowOf, WindowOf;
    if n: nat :| n <= |log| && SnapshotOf(row, log[..n], key) {
      assert row.readingCount > 0;
    }
  }

  // ---------------------------------------------------------------- runs that lose readings

  /** One reading persisted by an undisturbed flush that collects at `cur`. */
  function FlushOf(r: Reading, bucket: string, cur: string): seq<Step> {
    [Deliver(r), Collect(cur, [FoldRow([r], bucket, r.meterId)]), UpsertApplied, Publish]
  }

  /** The state after that reading alone. */
  lemma AfterOne(key: BucketKey, r: Reading, bucket: string)
    requires r.timestamp.Some? && key(r.timestamp.value) == bucket
    ensures var w := WindowOf([r], r.meterId);
      w.stats.count == 1 &&
      Next(INITIAL, key, Deliver(r)) == State(map[bucket := map[r.meterId := w]], map[], Idle, [r])
  {
    FoldSnoc([], r);
    FoldNone();
    FoldSums([r]);
    hide Update, Sum, Currents, AnyZeroVoltage;
    assert [] + [r] == [r];
  }

  /** The state after the publish of that flush. */
  lemma AfterFlush(key: BucketKey, r: Reading, bucket: string, cur: string)
    requires r.timestamp.Some? && key(r.timestamp.value) == bucket && LexLess(bucket, cur)
    ensures EnabledRun(INITIAL, key, FlushOf(r, bucket, cur))
    ensures var s, row := Run(INITIAL, key, FlushOf(r, bucket, cur)), FoldRow([r], bucket, r.meterId);
      && Inv(s, key) && s.phase == Published(cur) && s.log == [r]
      && s.windows == map[bucket := map[r.meterId := WindowOf([r], r.meterId)]]
      && s.table == map[(r.meterId, bucket) := row]
  {
    hide LexLess, Inv, Update, RowOf, Fold;
    var m, row := r.meterId, FoldRow([r], bucket, r.meterId);
    InitialInv(key);
    StepExact(INITIAL, key, Deliver(r));
    var s1 := Next(INITIAL, key, Deliver(r));
    AfterOne(key, r, bucket);
    assert ListsReady([row], s1.windows, cur) by {
      assert ReadyKeys(s1.windows, cur) == {(m, bucket)};
      assert RowKey([row][0]) == (m, bucket);
    }
    StepExact(s1, key, Collect(cur, [row]));
    var s2 := Next(s1, key, Collect(cur, [row]));
    StepExact(s2, key, UpsertApplied);
    var s3 := Next(s2, key, UpsertApplied);
    assert UpsertAll(map[], [row]) == map[(m, bucket) := row] by { assert [row][..0] == []; }
    StepExact(s3, key, Publish);
    FourSteps(INITIAL, key, Deliver(r), Collect(cur, [row]), UpsertApplied, Publish);
  }

  lemma FourSteps(s: State, key: BucketKey, a: Step, b: Step, c: Step, d: Step)
    ensures var s1 := Next(s, key, a);
      var s2 := Next(s1, key, b);
      var s3 := Next(s2, key, c);
      && Run(s, key, [a, b, c, d]) == Next(s3, key, d)
      && (EnabledRun(s, key, [a, b, c, d]) <==> Enabled(s, a) && Enabled(s1, b) && Enabled(s2, c) && Enabled(s3, d))
  {
    hide Next, Enabled;
    var s1 := Next(s, key, a);
    var s2 := Next(s1, key, b);
    FirstStep(s, key, a, [b, c, d]);
    FirstStep(s1, key, b, [c, d]);
    FirstStep(s2, key, c, [d]);
    FirstStep(Next(s2, key, c), key, d, []);
    assert [a] + [b, c, d] == [a, b, c, d] && [b] + [c, d] == [b, c, d] && [c] + [d] == [c, d] && [d] + [] == [d];
  }

  lemma FirstStep(s: State, key: BucketKey, step: Step, rest: seq<Step>)
    ensures Run(s, key, [step] + rest) == Run(Next(s, key, step), key, rest)
    ensures EnabledRun(s, key, [step] + rest) <==> Enabled(s, step) && EnabledRun(Next(s, key, step), key, rest)
  {
    assert ([step] + rest)[1..] == rest;
  }

  /** The clock reaching the next bucket between collect and clear loses the readings of the bucket
      that closed meanwhile: it was never collected. */
  lemma ClockAdvanceLoses(key: BucketKey, r: Reading, r2: Reading, cur: string, later: string)
    requires r.timestamp.Some? && r2.timestamp.Some?
    requires var b, b2 := key(r.timestamp.value), key(r2.timestamp.value);
      LexLess(b, cur) && b2 != b && !LexLess(b2, cur) && LexLess(b2, later)
    ensures var s := Run(INITIAL, key, FlushOf(r, key(r.timestamp.value), cur));
      var s2 := Next(s, key, Deliver(r2));
      Inv(s2, key) && Enabled(s2, Clear(later)) && !Faithful(Next(s2, key, Clear(later)), key)
  {
    AfterFlush(key, r, key(r.timestamp.value), cur);
    UncollectedLost(key, Run(INITIAL, key, FlushOf(r, key(r.timestamp.value), cur)), r2, later);
  }

  /** A reading for an already closed bucket that was empty at the collect is lost by the clear even
      though the clock stands still and its window was never persisted. */
  lemma ClosedBucketReadingLoses(key: BucketKey, r: Reading, r2: Reading, cur: string)
    requires r.timestamp.Some? && r2.timestamp.Some?
    requires var b, b2 := key(r.timestamp.value), key(r2.timestamp.value);
      LexLess(b, cur) && b2 != b && LexLess(b2, cur)
    ensures var s := Run(INITIAL, key, FlushOf(r, key(r.timestamp.value), cur));
      var s2 := Next(s, key, Deliver(r2));
      Inv(s2, key) && Enabled(s2, Clear(cur)) && !Faithful(Next(s2, key, Clear(cur)), key)
  {
    AfterFlush(key, r, key(r.timestamp.value), cur);
    UncollectedLost(key, Run(INITIAL, key, FlushOf(r, key(r.timestamp.value), cur)), r2, cur);
  }

  lemma UncollectedLost(key: BucketKey, s: State, r2: Reading, later: string)
    requires Inv(s, key) && s.phase.Published? && r2.timestamp.Some? && LexLess(key(r2.timestamp.value), later)
    requires (r2.meterId, key(r2.timestamp.value)) !in s.table
    ensures var s2 := Next(s, key, Deliver(r2));
      Inv(s2, key) && Enabled(s2, Clear(later)) && !Faithful(Next(s2, key, Clear(later)), key)
  {
    hide Inv, Faithful, Update, LexLess;
    var b2 := key(r2.timestamp.value);
    StepExact(s, key, Deliver(r2));
    var s2 := Next(s, key, Deliver(r2));
    assert Ready(s2.windows, later, b2, r2.meterId) && (r2.meterId, b2) !in s2.table;
    StepExact(s2, key, Clear(later));
  }

  lemma ClearOne(s: State, key: BucketKey, cur: string, bucket: string, m: string, w: Window, row: Aggregate)
    requires s.windows == map[bucket := map[m := w]] && s.table == map[(m, bucket) := row]
    requires LexLess(bucket, cur) && row.readingCount == w.stats.count
    ensures Safe(s, key, Clear(cur)) && Next(s, key, Clear(cur)) == s.(windows := map[], phase := Idle)
  {
    hide LexLess;
  }

  lemma AfterCycle(key: BucketKey, r: Reading, bucket: string, cur: string)
    requires r.timestamp.Some? && key(r.timestamp.value) == bucket && LexLess(bucket, cur)
    ensures var s := Next(Run(INITIAL, key, FlushOf(r, bucket, cur)), key, Clear(cur));
      && Inv(s, key) && s.phase == Idle && s.log == [r] && s.windows == map[]
      && s.table == map[(r.meterId, bucket) := FoldRow([r], bucket, r.meterId)]
  {
    hide *;
    AfterFlush(key, r, bucket, cur);
    var s := Run(INITIAL, key, FlushOf(r, bucket, cur));
    var w, row := WindowOf([r], r.meterId), FoldRow([r], bucket, r.meterId);
    OneCount(r);
    ClearOne(s, key, cur, bucket, r.meterId, w, row);
    CanClear(s, cur);
    StepExact(s, key, Clear(cur));
  }

  lemma OneCount(r: Reading)
    ensures WindowOf([r], r.meterId).stats.count == 1
  {
    hide Fold;
    FoldSums([r]);
  }

  lemma CanClear(s: State, cur: string)
    requires s.phase.Published?
    ensures Enabled(s, Clear(cur))
  {
  }

  lemma SelectTwice(key: BucketKey, r: Reading, bucket: string)
    requires r.timestamp.Some? && key(r.timestamp.value) == bucket
    ensures |Select([r] + [r], key, bucket, r.meterId)| == 2
  {
    SelectSnoc([r], r, key, bucket, r.meterId);
    SelectSnoc([], r, key, bucket, r.meterId);
    assert [] + [r] == [r];
  }

  lemma Reopened(s: State, key: BucketKey, r: Reading, bucket: string)
    requires r.timestamp.Some? && key(r.timestamp.value) == bucket
    requires s.windows == map[] && (r.meterId, bucket) in s.table && s.log == [r]
    ensures var s2 := Next(s, key, Deliver(r));
      && !Safe(s, key, Deliver(r)) && Enabled(s, Deliver(r)) && s2.log == [r] + [r]
      && Has(s2.windows, bucket, r.meterId) && s2.windows[bucket][r.meterId].stats.count == 1
  {
    hide Update;
    OneReading(r);
  }

  /** A reading for a window already persisted and cleared restarts it: the row that the next flush
      writes over the old one counts that reading alone. */
  lemma LateReadingLoses(key: BucketKey, r: Reading, bucket: string, cur: string)
    requires r.timestamp.Some? && key(r.timestamp.value) == bucket && LexLess(bucket, cur)
    ensures var s := Next(Run(INITIAL, key, FlushOf(r, bucket, cur)), key, Clear(cur));
      var s2 := Next(s, key, Deliver(r));
      && Inv(s, key) && s.phase.Idle? && !Faithful(s2, key)
      && Has(s2.windows, bucket, r.meterId) && s2.windows[bucket][r.meterId].stats.count == 1
      && |Select(s2.log, key, bucket, r.meterId)| == 2
  {
    hide Inv, Faithful, Update, LexLess, RowOf, Run, FlushOf, Next, Safe, Enabled, Select;
    AfterCycle(key, r, bucket, cur);
    var s := Next(Run(INITIAL, key, FlushOf(r, bucket, cur)), key, Clear(cur));
    Reopened(s, key, r, bucket);
    StepExact(s, key, Deliver(r));
    SelectTwice(key, r, bucket);
  }
}

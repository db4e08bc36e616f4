// The flush protocol of the stream processor: collect the ready windows, upsert them, publish,
// clear, with readings arriving between any two steps. One flush is in flight at a time; the theory
// holds for any bucket function, so for the 1-minute and the 15-minute flush alike.

module Flush {
  import opened Text
  import opened Windows
  import opened Aggregator

  /** aggregates_1m or aggregates_15m by primary key (meter_id, window_start) */
  type Table = map<(string, string), Aggregate>

  /** Where the flush stands. `touched` records the buckets of the readings delivered since the
      collect; the code keeps no such record. */
  datatype Phase =
    | Idle
    | Collected(batch: seq<Aggregate>, cur: string, touched: set<string>)
    | Upserted(cur: string)
    | Published(cur: string)

  datatype State = State(windows: WindowTable, table: Table, phase: Phase, log: seq<Reading>)

  const INITIAL := State(map[], map[], Idle, [])

  /** Upserts either apply and succeed, fail without effect, or apply although the call throws.
      publish is not a failing step: the producer catches its own errors. */
  datatype Step =
    | Deliver(r: Reading)
    | Collect(cur: string, rows: seq<Aggregate>)
    | UpsertApplied
    | UpsertFailed
    | UpsertUnacknowledged
    | Publish
    | Clear(cur: string)

  ghost predicate Enabled(s: State, step: Step) {
    match step
    case Deliver(_) => true
    case Collect(cur, rows) => s.phase.Idle? && Sound(s.windows) && ListsReady(rows, s.windows, cur)
    case UpsertApplied => s.phase.Collected?
    case UpsertFailed => s.phase.Collected?
    case UpsertUnacknowledged => s.phase.Collected?
    case Publish => s.phase.Upserted?
    case Clear(_) => s.phase.Published?
  }

  /** INSERT ... ON CONFLICT (meter_id, window_start) DO UPDATE, row by row */
  function UpsertAll(table: Table, rows: seq<Aggregate>): Table {
    if rows == [] then table
    else UpsertAll(table, rows[..|rows| - 1])[RowKey(rows[|rows| - 1]) := rows[|rows| - 1]]
  }

  function AfterDelivery(s: State, key: BucketKey, r: Reading): State {
    if r.timestamp.None? then s.(log := s.log + [r])
    else
      var b := key(r.timestamp.value);
      s.(windows := UpdateTable(s.windows, b, r), log := s.log + [r],
         phase := if s.phase.Collected? then s.phase.(touched := s.phase.touched + {b}) else s.phase)
  }

  function Next(s: State, key: BucketKey, step: Step): State {
    match step
    case Deliver(r) => AfterDelivery(s, key, r)
    case Collect(cur, rows) => if rows == [] then s else s.(phase := Collected(rows, cur, {}))
    case UpsertApplied =>
      if s.phase.Collected? then s.(table := UpsertAll(s.table, s.phase.batch), phase := Upserted(s.phase.cur)) else s
    case UpsertFailed => s.(phase := Idle)
    case UpsertUnacknowledged =>
      if s.phase.Collected? then s.(table := UpsertAll(s.table, s.phase.batch), phase := Idle) else s
    case Publish => if s.phase.Upserted? then s.(phase := Published(s.phase.cur)) else s
    case Clear(cur) => s.(windows := Unflushed(s.windows, cur), phase := Idle)
  }

  // ---------------------------------------------------------------- what must hold

  /** The row the readings of one meter and bucket amount to. */
  function FoldRow(sel: seq<Reading>, bucket: string, meter: string): (row: Aggregate)
    requires sel != []
    ensures RowKey(row) == (meter, bucket) && row.readingCount == |sel|
  {
    FoldSums(sel);
    RowOf(bucket, WindowOf(sel, meter))
  }

  lemma FoldRowSummarizes(sel: seq<Reading>, bucket: string, meter: string)
    requires sel != []
    ensures Summarizes(FoldRow(sel, bucket, meter), sel)
  {
    hide RowOf, WindowOf, Summarizes;
    RowSummarizes(sel, bucket, meter);
  }

  /** A window still in memory, or else the persisted row, is the fold of all readings delivered for
      it; and every dated reading is accounted for by one of them. */
  ghost predicate FaithfulAt(s: State, key: BucketKey, b: string, m: string) {
    var sel := Select(s.log, key, b, m);
    if Has(s.windows, b, m) then sel != [] && s.windows[b][m] == WindowOf(sel, m)
    else if (m, b) in s.table then sel != [] && s.table[(m, b)] == FoldRow(sel, b, m)
    else sel == []
  }

  ghost predicate Faithful(s: State, key: BucketKey) {
    forall b, m :: FaithfulAt(s, key, b, m)
  }

  /** row is the fold of the first readings delivered for its key */
  ghost predicate Snapshot(row: Aggregate, log: seq<Reading>, key: BucketKey) {
    exists n :: 0 <= n <= |log| && SnapshotOf(row, log[..n], key)
  }

  ghost predicate SnapshotOf(row: Aggregate, log: seq<Reading>, key: BucketKey) {
    var (m, b) := RowKey(row);
    var sel := Select(log, key, b, m);
    sel != [] && row == FoldRow(sel, b, m)
  }

  ghost predicate Batch(s: State, rows: seq<Aggregate>, key: BucketKey) {
    && (forall i :: 0 <= i < |rows| ==> Snapshot(rows[i], s.log, key))
    && (forall i, j :: 0 <= i < j < |rows| ==> RowKey(rows[i]) != RowKey(rows[j]))
    && (forall i :: 0 <= i < |rows| ==> Has(s.windows, RowKey(rows[i]).1, RowKey(rows[i]).0))
  }

  ghost predicate Inv(s: State, key: BucketKey) {
    && Faithful(s, key)
    && (forall k :: k in s.table ==> RowKey(s.table[k]) == k && Snapshot(s.table[k], s.log, key))
    && (s.phase.Collected? ==> Batch(s, s.phase.batch, key))
  }

  /** What the code would have to check to lose nothing: a reading may not reopen a window whose row
      is already persisted, and a clear may only drop windows whose row counts every reading. */
  ghost predicate Safe(s: State, key: BucketKey, step: Step) {
    match step
    case Deliver(r) =>
      r.timestamp.Some? ==> var b := key(r.timestamp.value);
        Has(s.windows, b, r.meterId) || (r.meterId, b) !in s.table
    case Clear(cur) =>
      forall b, m :: Ready(s.windows, cur, b, m) ==>
        (m, b) in s.table && s.table[(m, b)].readingCount == s.windows[b][m].stats.count
    case _ => true
  }

  // ---------------------------------------------------------------- selections grow by prefixes

  lemma {:induction false} SelectPrefix(log: seq<Reading>, n: nat, key: BucketKey, b: string, m: string)
    requires n <= |log|
    ensures Select(log[..n], key, b, m) <= Select(log, key, b, m)
  {
    if n == |log| {
      assert log[..n] == log;
    } else {
      var init := log[..|log| - 1];
      SelectPrefix(init, n, key, b, m);
      assert init[..n] == log[..n];
    }
  }

  lemma SnapshotGrows(row: Aggregate, log: seq<Reading>, r: Reading, key: BucketKey)
    requires Snapshot(row, log, key)
    ensures Snapshot(row, log + [r], key)
  {
    hide SnapshotOf;
    var n :| 0 <= n <= |log| && SnapshotOf(row, log[..n], key);
    assert (log + [r])[..n] == log[..n];
  }

  /** A snapshot that counts every reading is the full fold. */
  lemma FullSnapshot(row: Aggregate, log: seq<Reading>, key: BucketKey)
    requires Snapshot(row, log, key)
    ensures var (m, b) := RowKey(row);
      var sel := Select(log, key, b, m);
      && sel != [] && row.readingCount <= |sel|
      && (row.readingCount == |sel| <==> row == FoldRow(sel, b, m))
  {
    hide RowOf, WindowOf;
    var (m, b) := RowKey(row);
    var n :| 0 <= n <= |log| && SnapshotOf(row, log[..n], key);
    SelectPrefix(log, n, key, b, m);
    var part, whole := Select(log[..n], key, b, m), Select(log, key, b, m);
    if |part| == |whole| {
      assert part == whole;
    }
  }

  lemma {:induction false} UpsertLookup(table: Table, rows: seq<Aggregate>, k: (string, string))
    requires forall i, j :: 0 <= i < j < |rows| ==> RowKey(rows[i]) != RowKey(rows[j])
    ensures UpsertAll(table, rows).Keys == table.Keys + set i | 0 <= i < |rows| :: RowKey(rows[i])
    ensures forall i :: 0 <= i < |rows| && RowKey(rows[i]) == k ==> UpsertAll(table, rows)[k] == rows[i]
    ensures (forall i :: 0 <= i < |rows| ==> RowKey(rows[i]) != k) && k in table ==>
      UpsertAll(table, rows)[k] == table[k]
  {
    if rows != [] {
      var init, last := rows[..|rows| - 1], rows[|rows| - 1];
      assert forall i :: 0 <= i < |init| ==> init[i] == rows[i];
      UpsertLookup(table, init, k);
      assert (set i | 0 <= i < |rows| :: RowKey(rows[i])) ==
        (set i | 0 <= i < |init| :: RowKey(init[i])) + {RowKey(last)};
    }
  }

  // ---------------------------------------------------------------- one step at a time

  /** A delivery touches the window the reading lands in, and no other. */
  lemma DeliverTouches(s: State, key: BucketKey, r: Reading, b: string, m: string)
    ensures var s' := AfterDelivery(s, key, r);
      && s'.table == s.table && s'.log == s.log + [r]
      && if Lands(r, key, b, m) then Has(s'.windows, b, m) && s'.windows[b][m] == Touched(s.windows, b, r)
         else (Has(s'.windows, b, m) <==> Has(s.windows, b, m)) &&
              (Has(s.windows, b, m) ==> s'.windows[b][m] == s.windows[b][m])
  {
    hide Touched;
  }

  lemma TouchedFold(s: State, key: BucketKey, r: Reading, b: string, m: string)
    requires FaithfulAt(s, key, b, m) && Safe(s, key, Deliver(r)) && Lands(r, key, b, m)
    ensures Touched(s.windows, b, r) == WindowOf(Select(s.log, key, b, m) + [r], m)
  {
    hide Update, Fold, FoldRow, Select;
    FoldSnoc(Select(s.log, key, b, m), r);
    FoldNone();
  }

  lemma DeliverAt(s: State, key: BucketKey, r: Reading, b: string, m: string)
    requires FaithfulAt(s, key, b, m) && Safe(s, key, Deliver(r))
    ensures FaithfulAt(AfterDelivery(s, key, r), key, b, m)
  {
    hide Safe, AfterDelivery, Touched, WindowOf, FoldRow, Select, Lands;
    DeliverTouches(s, key, r, b, m);
    SelectSnoc(s.log, r, key, b, m);
    if Lands(r, key, b, m) {
      TouchedFold(s, key, r, b, m);
    } else {
      assert Select(s.log + [r], key, b, m) == Select(s.log, key, b, m);
    }
  }

  lemma DeliverKeeps(s: State, key: BucketKey, r: Reading)
    requires Inv(s, key) && Safe(s, key, Deliver(r))
    ensures Inv(AfterDelivery(s, key, r), key)
  {
    hide FaithfulAt, Snapshot, Update;
    var s' := AfterDelivery(s, key, r);
    forall b, m ensures FaithfulAt(s', key, b, m) {
      assert FaithfulAt(s, key, b, m);
      DeliverAt(s, key, r, b, m);
    }
    forall row | Snapshot(row, s.log, key) ensures Snapshot(row, s'.log, key) {
      SnapshotGrows(row, s.log, r, key);
    }
  }

  /** A late reading restarts the window at one reading, and the fold of all its readings is lost. */
  lemma DeliverBreaks(s: State, key: BucketKey, r: Reading)
    requires Inv(s, key)
    ensures !Safe(s, key, Deliver(r)) ==> !Faithful(AfterDelivery(s, key, r), key)
  {
    hide Fold, Update, FoldRow;
    if !Safe(s, key, Deliver(r)) {
      var b, m := key(r.timestamp.value), r.meterId;
      assert FaithfulAt(s, key, b, m);
      var s' := AfterDelivery(s, key, r);
      SelectSnoc(s.log, r, key, b, m);
      var sel' := Select(s'.log, key, b, m);
      FoldSums(sel');
      OneReading(r);
      assert s'.windows[b][m].stats.count == 1 && |sel'| > 1;
      assert !FaithfulAt(s', key, b, m);
    }
  }

  lemma OneReading(r: Reading)
    ensures Update(EMPTY, r).count == 1
  {
  }

  lemma ClearAt(s: State, key: BucketKey, cur: string, b: string, m: string)
    requires Inv(s, key)
    ensures FaithfulAt(Next(s, key, Clear(cur)), key, b, m) <==>
      (Ready(s.windows, cur, b, m) ==> (m, b) in s.table && s.table[(m, b)].readingCount == s.windows[b][m].stats.count)
  {
    hide RowOf, LexLess, Fold, Snapshot, Batch;
    assert FaithfulAt(s, key, b, m);
    var sel := Select(s.log, key, b, m);
    if Ready(s.windows, cur, b, m) {
      FoldSums(sel);
      if (m, b) in s.table {
        FullSnapshot(s.table[(m, b)], s.log, key);
      }
    }
  }

  lemma ClearExact(s: State, key: BucketKey, cur: string)
    requires Inv(s, key)
    ensures Faithful(Next(s, key, Clear(cur)), key) <==> Safe(s, key, Clear(cur))
    ensures Safe(s, key, Clear(cur)) ==> Inv(Next(s, key, Clear(cur)), key)
  {
    hide FaithfulAt, Snapshot, LexLess;
    forall b, m
      ensures FaithfulAt(Next(s, key, Clear(cur)), key, b, m) <==>
        (Ready(s.windows, cur, b, m) ==>
         (m, b) in s.table && s.table[(m, b)].readingCount == s.windows[b][m].stats.count)
    {
      ClearAt(s, key, cur, b, m);
    }
  }

  lemma ReadyIsSnapshot(s: State, key: BucketKey, cur: string, rows: seq<Aggregate>, i: nat)
    requires Inv(s, key) && Enabled(s, Collect(cur, rows)) && i < |rows|
    ensures Snapshot(rows[i], s.log, key)
  {
    hide RowOf, Fold, LexLess;
    var k := RowKey(rows[i]);
    assert FaithfulAt(s, key, k.1, k.0);
    assert s.log[..|s.log|] == s.log;
    assert SnapshotOf(rows[i], s.log[..|s.log|], key);
  }

  lemma CollectKeeps(s: State, key: BucketKey, cur: string, rows: seq<Aggregate>)
    requires Inv(s, key) && Enabled(s, Collect(cur, rows))
    ensures Inv(Next(s, key, Collect(cur, rows)), key)
  {
    hide RowOf, Fold, LexLess, Snapshot;
    forall i | 0 <= i < |rows| ensures Snapshot(rows[i], s.log, key) {
      ReadyIsSnapshot(s, key, cur, rows, i);
    }
    forall b, m ensures FaithfulAt(Next(s, key, Collect(cur, rows)), key, b, m) {
      assert FaithfulAt(s, key, b, m);
    }
  }

  lemma UpsertKeeps(s: State, key: BucketKey, phase: Phase)
    requires Inv(s, key) && s.phase.Collected? && !phase.Collected?
    ensures Inv(s.(table := UpsertAll(s.table, s.phase.batch), phase := phase), key)
  {
    hide Snapshot, Fold, RowOf, UpsertAll;
    var rows := s.phase.batch;
    var s' := s.(table := UpsertAll(s.table, rows), phase := phase);
    forall k | k in s'.table ensures RowKey(s'.table[k]) == k && Snapshot(s'.table[k], s'.log, key) {
      UpsertLookup(s.table, rows, k);
    }
    forall b, m ensures FaithfulAt(s', key, b, m) {
      assert FaithfulAt(s, key, b, m);
      UpsertLookup(s.table, rows, (m, b));
    }
  }

  /** A step keeps every window and row the fold of its readings exactly when it is safe. */
  lemma StepExact(s: State, key: BucketKey, step: Step)
    requires Inv(s, key) && Enabled(s, step)
    ensures Faithful(Next(s, key, step), key) <==> Safe(s, key, step)
    ensures Safe(s, key, step) ==> Inv(Next(s, key, step), key)
  {
    hide Fold, LexLess, Snapshot, AfterDelivery, UpsertAll, Batch;
    match step
    case Deliver(r) =>
      if Safe(s, key, step) { DeliverKeeps(s, key, r); } else { DeliverBreaks(s, key, r); }
    case Collect(cur, rows) => CollectKeeps(s, key, cur, rows);
    case UpsertApplied => UpsertKeeps(s, key, Upserted(s.phase.cur));
    case UpsertUnacknowledged => UpsertKeeps(s, key, Idle);
    case Clear(cur) => ClearExact(s, key, cur);
    case UpsertFailed => PhaseOnly(s, key, Idle);
    case Publish => PhaseOnly(s, key, Published(s.phase.cur));
  }

  lemma PhaseOnly(s: State, key: BucketKey, phase: Phase)
    requires Inv(s, key) && !phase.Collected?
    ensures Inv(s.(phase := phase), key)
  {
    hide Fold, Snapshot, Select;
    forall b, m ensures FaithfulAt(s.(phase := phase), key, b, m) {
      assert FaithfulAt(s, key, b, m);
    }
  }
}

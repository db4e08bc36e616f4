// flushController: the 1-minute flush as one uninterrupted call, tied to the step machine.

module FlushControl {
  import opened Text
  import opened Windows
  import opened Aggregator
  import opened Flush
  import opened FlushRuns

  datatype Outcome = Applied | Failed | Unacknowledged

  /** The steps one call takes: nothing more when no row is ready or the upsert throws. */
  function FlushSteps(rows: seq<Aggregate>, cur: string, outcome: Outcome, clearCur: string): seq<Step> {
    if rows == [] then [Collect(cur, rows)]
    else match outcome
      case Applied => [Collect(cur, rows), UpsertApplied, Publish, Clear(clearCur)]
      case Failed => [Collect(cur, rows), UpsertFailed]
      case Unacknowledged => [Collect(cur, rows), UpsertUnacknowledged]
  }

  lemma TwoSteps(s: State, key: BucketKey, a: Step, b: Step)
    ensures Run(s, key, [a, b]) == Next(Next(s, key, a), key, b)
  {
    hide Next;
    FirstStep(s, key, a, [b]);
    FirstStep(Next(s, key, a), key, b, []);
    assert [a] + [b] == [a, b] && [b] + [] == [b];
  }

  lemma OneStep(s: State, key: BucketKey, a: Step)
    ensures Run(s, key, [a]) == Next(s, key, a)
  {
    hide Next;
    FirstStep(s, key, a, []);
    assert [a] + [] == [a];
  }

  /** Collecting and upserting covers every ready window, so a clear at the same bucket is safe. */
  lemma CollectedIsCovered(s: State, key: BucketKey, cur: string, rows: seq<Aggregate>)
    requires Sound(s.windows) && ListsReady(rows, s.windows, cur)
    ensures Safe(s.(table := UpsertAll(s.table, rows), phase := Published(cur)), key, Clear(cur))
  {
    hide LexLess, UpsertAll;
    forall b, m | Ready(s.windows, cur, b, m)
      ensures (m, b) in UpsertAll(s.table, rows) &&
        UpsertAll(s.table, rows)[(m, b)].readingCount == s.windows[b][m].stats.count
    {
      assert (m, b) in ReadyKeys(s.windows, cur);
      var i :| 0 <= i < |rows| && RowKey(rows[i]) == (m, b);
      UpsertLookup(s.table, rows, (m, b));
    }
  }

  /** A flush that no reading and no minute boundary interrupts keeps everything exact, whatever the
      upsert does. */
  lemma UninterruptedFlush(s: State, key: BucketKey, cur: string, rows: seq<Aggregate>, outcome: Outcome)
    requires Inv(s, key) && s.phase.Idle? && Sound(s.windows) && ListsReady(rows, s.windows, cur)
    ensures Inv(Run(s, key, FlushSteps(rows, cur, outcome, cur)), key)
  {
    hide Inv, Run, ListsReady, Faithful, Safe;
    OneStep(s, key, Collect(cur, rows));
    SafeOtherwise(s, key, Collect(cur, rows));
    StepExact(s, key, Collect(cur, rows));
    var s1 := Next(s, key, Collect(cur, rows));
    if rows != [] {
      match outcome
      case Applied =>
        FourSteps(s, key, Collect(cur, rows), UpsertApplied, Publish, Clear(cur));
        SafeOtherwise(s1, key, UpsertApplied);
        StepExact(s1, key, UpsertApplied);
        var s2 := Next(s1, key, UpsertApplied);
        SafeOtherwise(s2, key, Publish);
        StepExact(s2, key, Publish);
        CollectedIsCovered(s, key, cur, rows);
        StepExact(Next(s2, key, Publish), key, Clear(cur));
      case Failed =>
        TwoSteps(s, key, Collect(cur, rows), UpsertFailed);
        SafeOtherwise(s1, key, UpsertFailed);
        StepExact(s1, key, UpsertFailed);
      case Unacknowledged =>
        TwoSteps(s, key, Collect(cur, rows), UpsertUnacknowledged);
        SafeOtherwise(s1, key, UpsertUnacknowledged);
        StepExact(s1, key, UpsertUnacknowledged);
    }
  }

  /** Where one call leaves the tables. */
  function FlushEnd(s: State, rows: seq<Aggregate>, outcome: Outcome, clearCur: string): State {
    if rows == [] || outcome == Failed then s
    else
      var t := s.(table := UpsertAll(s.table, rows));
      if outcome == Applied then t.(windows := Unflushed(t.windows, clearCur)) else t
  }

  lemma FlushEnds(s: State, key: BucketKey, rows: seq<Aggregate>, cur: string, outcome: Outcome, clearCur: string)
    requires s.phase.Idle?
    ensures Run(s, key, FlushSteps(rows, cur, outcome, clearCur)) == FlushEnd(s, rows, outcome, clearCur)
  {
    hide Run, UpsertAll, Unflushed;
    OneStep(s, key, Collect(cur, rows));
    if rows != [] {
      match outcome
      case Applied => FourSteps(s, key, Collect(cur, rows), UpsertApplied, Publish, Clear(clearCur));
      case Failed => TwoSteps(s, key, Collect(cur, rows), UpsertFailed);
      case Unacknowledged => TwoSteps(s, key, Collect(cur, rows), UpsertUnacknowledged);
    }
  }

  /** Every window counted twice, persisted and in memory, is over by this bucket. */
  ghost predicate DoublesOver(s: State, cur: string) {
    forall k :: k in s.table && InMemory(s, k) ==> LexLess(k.1, cur)
  }

  lemma DoubleAt(s: State, cur: string, rows: seq<Aggregate>, k: (string, string))
    requires Sound(s.windows) && ListsReady(rows, s.windows, cur) && rows != []
    ensures var s' := FlushEnd(s, rows, Applied, cur);
      k in s'.table && InMemory(s', k) <==> k in s.table && InMemory(s, k) && !LexLess(k.1, cur)
  {
    hide LexLess, UpsertAll;
    UpsertLookup(s.table, rows, k);
    if i :| 0 <= i < |rows| && RowKey(rows[i]) == k {
      assert k in ReadyKeys(s.windows, cur);
    }
  }

  /** Clearing at the bucket of the collect leaves in both places just what was there before and is not over. */
  lemma DoublesAfter(s: State, cur: string, rows: seq<Aggregate>)
    requires Sound(s.windows) && ListsReady(rows, s.windows, cur) && rows != []
    ensures var s' := FlushEnd(s, rows, Applied, cur);
      (forall k :: k in s'.table ==> !InMemory(s', k)) <==> DoublesOver(s, cur)
  {
    hide LexLess, FlushEnd, InMemory, ListsReady;
    var s' := FlushEnd(s, rows, Applied, cur);
    forall k ensures k in s'.table && InMemory(s', k) <==> k in s.table && InMemory(s, k) && !LexLess(k.1, cur) {
      DoubleAt(s, cur, rows, k);
    }
  }

  lemma NothingFlushed(s: State, cur: string)
    ensures FlushEnd(s, [], Applied, cur) == s
  {
  }

  lemma NothingReady(s: State, cur: string)
    requires Sound(s.windows) && ListsReady([], s.windows, cur)
    ensures DoublesOver(s, cur) <==> forall k :: k in s.table ==> !InMemory(s, k)
  {
    hide LexLess;
    forall k | InMemory(s, k) ensures !LexLess(k.1, cur) {
      assert k !in ReadyKeys(s.windows, cur);
    }
  }

  /** The next flush that is applied makes the counts add up again if and only if every window counted twice is over by
      the bucket it collects at. */
  lemma FlushRestoresSum(s: State, key: BucketKey, cur: string, rows: seq<Aggregate>)
    requires Inv(s, key) && s.phase.Idle? && Sound(s.windows) && ListsReady(rows, s.windows, cur)
    ensures var s' := Run(s, key, FlushSteps(rows, cur, Applied, cur));
      RowCounts(s'.table, s'.table.Keys) + WindowCounts(s'.windows, MemoryKeys(s'.windows)) == Dated(s'.log) <==>
      DoublesOver(s, cur)
  {
    hide Inv, Run, FlushSteps, ListsReady, DoublesOver, RowCounts, WindowCounts, Dated, MemoryKeys, InMemory, FlushEnd;
    var s' := Run(s, key, FlushSteps(rows, cur, Applied, cur));
    UninterruptedFlush(s, key, cur, rows, Applied);
    FlushEnds(s, key, rows, cur, Applied, cur);
    SumExact(s', key);
    if rows == [] {
      NothingFlushed(s, cur);
      NothingReady(s, cur);
    } else {
      DoublesAfter(s, cur, rows);
    }
  }

  lemma SafeOtherwise(s: State, key: BucketKey, step: Step)
    requires !step.Deliver? && !step.Clear?
    ensures Safe(s, key, step)
  {
  }

  class FlushController {
    const aggregator: AggregatorService
    var aggregates1m: Table
    /** every reading handed to the aggregator so far */
    ghost var log: seq<Reading>

    ghost predicate Valid()
      reads this, aggregator
    {
      aggregator.Valid()
    }

    ghost function Key(): BucketKey
      reads this
    {
      Minute(aggregator.offset)
    }

    ghost function Abstract(): State
      reads this, aggregator
    {
      State(aggregator.windows1m, aggregates1m, Idle, log)
    }

    constructor (offset: int)
      ensures Valid() && fresh(aggregator) && aggregator.offset == offset && Abstract() == INITIAL
    {
      aggregator := new AggregatorService(offset);
      aggregates1m, log := map[], [];
    }

    method HandleReading(r: Reading)
      requires Valid()
      modifies this, aggregator
      ensures Valid() && Abstract() == Next(old(Abstract()), Key(), Deliver(r))
    {
      hide UpdateTable;
      aggregator.ProcessReading(r);
      log := log + [r];
    }

    /** upsertAggregates1m */
    method UpsertAggregates1m(rows: seq<Aggregate>)
      requires Valid()
      modifies this`aggregates1m
      ensures Valid() && aggregates1m == UpsertAll(old(aggregates1m), rows)
    {
      assert rows[..0] == [];
      for i := 0 to |rows|
        invariant Valid() && aggregates1m == UpsertAll(old(aggregates1m), rows[..i])
      {
        aggregates1m := aggregates1m[RowKey(rows[i]) := rows[i]];
        assert rows[..i + 1][..i] == rows[..i];
      }
      assert rows[..|rows|] == rows;
    }

    /** flush1mAggregates, collecting at `now` and clearing at `clearNow` */
    method Flush1mAggregates(now: int, outcome: Outcome, clearNow: int) returns (rows: seq<Aggregate>)
      requires Valid()
      modifies this, aggregator
      ensures Valid()
      ensures Sound(old(aggregator.windows1m)) && ListsReady(rows, old(aggregator.windows1m), Key()(now))
      ensures Abstract() == Run(old(Abstract()), Key(), FlushSteps(rows, Key()(now), outcome, Key()(clearNow)))
      ensures Inv(old(Abstract()), Key()) && Key()(clearNow) == Key()(now) ==> Inv(Abstract(), Key())
    {
      hide ListsReady, UpsertAll, Inv, Run, FlushSteps, Holds, Unflushed, Kept;
      ghost var s, key, cur, clearCur := Abstract(), Key(), Key()(now), Key()(clearNow);
      rows := aggregator.GetReadyAggregates1m(now);
      FlushEnds(s, key, rows, cur, outcome, clearCur);
      if Inv(s, key) && clearCur == cur {
        UninterruptedFlush(s, key, cur, rows, outcome);
      }
      if rows != [] && outcome != Failed {
        UpsertAggregates1m(rows);
        if outcome == Applied {
          var _ := aggregator.ClearFlushedWindows1m(clearNow);
        }
      }
    }
  }
}

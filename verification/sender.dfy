// HttpSender: batching, the retry loop with exponential backoff, the concurrency limiter, and what
// they mean for the deduplicator behind the ingestion endpoint.

module Sender {
  import opened Arithmetic
  import opened Dedupe

  const TIMEOUT_MS := 30000

  // ---------------------------------------------------------------- batches

  function Flatten<T>(chunks: seq<seq<T>>): seq<T> {
    if chunks == [] then [] else Flatten(chunks[..|chunks| - 1]) + chunks[|chunks| - 1]
  }

  /** chunkArray: element i goes to chunk i / chunkSize, in order. */
  method ChunkArray<T>(items: seq<T>, chunkSize: nat) returns (chunks: seq<seq<T>>)
    requires chunkSize > 0
    ensures Flatten(chunks) == items
    ensures forall c :: 0 <= c < |chunks| ==> 0 < |chunks[c]| <= chunkSize
    ensures forall c :: 0 <= c < |chunks| - 1 ==> |chunks[c]| == chunkSize
  {
    chunks := [];
    var i := 0;
    while i < |items|
      invariant Flatten(chunks) == if i < |items| then items[..i] else items
      invariant forall c :: 0 <= c < |chunks| ==> 0 < |chunks[c]| <= chunkSize
      invariant forall c :: 0 <= c < |chunks| - 1 ==> |chunks[c]| == chunkSize
      invariant i < |items| ==> forall c :: 0 <= c < |chunks| ==> |chunks[c]| == chunkSize
    {
      var end := if i + chunkSize <= |items| then i + chunkSize else |items|;
      var chunk := items[i..end];
      assert (chunks + [chunk])[..|chunks|] == chunks;
      assert items[..i] + chunk == items[..end];
      chunks := chunks + [chunk];
      i := i + chunkSize;
    }
    assert items[..|items|] == items;
  }

  // ---------------------------------------------------------------- the retry loop

  function Pow2(n: nat): (p: nat)
    ensures p > 0
  {
    if n == 0 then 1 else 2 * Pow2(n - 1)
  }

  /** How one POST ends: accepted or not, after at most the request timeout. */
  datatype Reply = Reply(ok: bool, took: nat)

  datatype Interval = Interval(begin: int, end: int)

  predicate Timely(replies: seq<Reply>) {
    forall i :: 0 <= i < |replies| ==> replies[i].took <= TIMEOUT_MS
  }

  /** When attempt i of a batch begins: after the earlier attempts and the sleeps between them. */
  function Begins(start: int, base: nat, replies: seq<Reply>, i: nat): (t: int)
    requires i <= |replies|
    ensures t >= start
  {
    if i == 0 then start else Begins(start, base, replies, i - 1) + replies[i - 1].took + base * Pow2(i - 1)
  }

  /** n attempts of at most 30000 ms with sleeps base, 2 base, 4 base, ... between them */
  function SpanMs(attempts: nat, base: nat): nat {
    if attempts == 0 then 0 else attempts * TIMEOUT_MS + base * (Pow2(attempts - 1) - 1)
  }

  lemma {:induction false} BeginsWithin(start: int, base: nat, replies: seq<Reply>, i: nat)
    requires i <= |replies| && Timely(replies)
    ensures start <= Begins(start, base, replies, i) <= start + i * TIMEOUT_MS + base * (Pow2(i) - 1)
  {
    if i > 0 {
      BeginsWithin(start, base, replies, i - 1);
      Distribute(base, Pow2(i - 1) - 1, Pow2(i - 1));
    }
  }

  lemma {:induction false} Pow2Grows(i: nat, j: nat)
    requires i <= j
    ensures Pow2(i) <= Pow2(j)
    decreases j - i
  {
    if i < j {
      Pow2Grows(i + 1, j);
    }
  }

  /** Attempt i from its POST to its reply. */
  function Attempt(start: int, base: nat, replies: seq<Reply>, i: nat): Interval
    requires i < |replies|
  {
    Interval(Begins(start, base, replies, i), Begins(start, base, replies, i) + replies[i].took)
  }

  predicate Within(a: Interval, begin: int, end: int) {
    begin <= a.begin <= a.end <= end
  }

  /** Every attempt lies within the span, for any number of attempts and any base delay. */
  lemma AttemptWithin(start: int, base: nat, replies: seq<Reply>, i: nat)
    requires i < |replies| && Timely(replies)
    ensures Within(Attempt(start, base, replies, i), start, start + SpanMs(|replies|, base))
  {
    BeginsWithin(start, base, replies, i);
    Pow2Grows(i, |replies| - 1);
    Monotone(base, Pow2(i) - 1, Pow2(|replies| - 1) - 1);
  }

  /** How many attempts a batch takes: up to and with the first accepted one, or all of them. */
  function Used(replies: seq<Reply>): (n: nat)
    ensures n <= |replies| && forall i :: 0 <= i < n - 1 ==> !replies[i].ok
    ensures n == |replies| || (n > 0 && replies[n - 1].ok)
    decreases |replies|
  {
    if replies == [] then 0
    else if replies[0].ok then 1
    else
      var n := Used(replies[1..]);
      assert forall i :: 0 < i < n ==> replies[i] == replies[1..][i - 1];
      n + 1
  }

  /** How long a batch takes, from its start to the reply of its last attempt. */
  function Took(base: nat, replies: seq<Reply>): nat {
    var n := Used(replies);
    if n == 0 then 0 else Begins(0, base, replies, n - 1) + replies[n - 1].took
  }

  lemma {:induction false} BeginsShift(start: int, base: nat, replies: seq<Reply>, i: nat)
    requires i <= |replies|
    ensures Begins(start, base, replies, i) == start + Begins(0, base, replies, i)
  {
    if i > 0 {
      BeginsShift(start, base, replies, i - 1);
    }
  }

  lemma TookWithin(base: nat, replies: seq<Reply>)
    requires Timely(replies)
    ensures Took(base, replies) <= SpanMs(|replies|, base)
  {
    hide SpanMs;
    if Used(replies) > 0 {
      AttemptWithin(0, base, replies, Used(replies) - 1);
    }
  }

  /** The sleep after attempt i, doubled each time. */
  function Delay(base: nat, i: nat): nat {
    if i == 0 then base else 2 * Delay(base, i - 1)
  }

  lemma {:induction false} DelayDoubles(base: nat, i: nat)
    ensures Delay(base, i) == base * Pow2(i)
  {
    if i > 0 {
      DelayDoubles(base, i - 1);
      Distribute(base, Pow2(i - 1), Pow2(i - 1));
    }
  }

  lemma FirstBegins(start: int, base: nat, replies: seq<Reply>)
    ensures Begins(start, base, replies, 0) == start && Delay(base, 0) == base
  {
  }

  lemma NextBegins(start: int, base: nat, replies: seq<Reply>, i: nat)
    requires i < |replies|
    ensures Begins(start, base, replies, i + 1) == Begins(start, base, replies, i) + replies[i].took + Delay(base, i)
    ensures Delay(base, i + 1) == 2 * Delay(base, i)
  {
    DelayDoubles(base, i);
  }

  /** sendBatch: stops at the first accepted attempt, otherwise uses them all; it returns at the end of the last. */
  method SendBatch(start: int, base: nat, replies: seq<Reply>)
    returns (success: bool, attempts: seq<Interval>, finished: int)
    requires Timely(replies)
    ensures success <==> exists i :: 0 <= i < |replies| && replies[i].ok
    ensures |attempts| == Used(replies)
    ensures finished == start + Took(base, replies)
    ensures attempts != [] ==> attempts[|attempts| - 1].end == finished
    ensures forall i :: 0 <= i < |attempts| ==> attempts[i] == Attempt(start, base, replies, i)
    ensures forall i :: 0 <= i < |attempts| ==> Within(attempts[i], start, start + SpanMs(|replies|, base))
    ensures forall i :: 0 <= i < |attempts| - 1 ==> !replies[i].ok
    ensures if success then |attempts| > 0 && replies[|attempts| - 1].ok else |attempts| == |replies|
  {
    hide SpanMs, Within, Begins, Pow2, Delay;
    FirstBegins(start, base, replies);
    attempts := [];
    var now, delay := start, base;
    var attempt := 0;
    while attempt < |replies|
      invariant 0 <= attempt <= |replies| && |attempts| == attempt
      invariant attempt < |replies| ==> now == Begins(start, base, replies, attempt)
      invariant attempt == |replies| ==> now == if attempts == [] then start else attempts[attempt - 1].end
      invariant delay == Delay(base, attempt)
      invariant forall i :: 0 <= i < attempt ==> !replies[i].ok && attempts[i] == Attempt(start, base, replies, i)
      invariant forall i :: 0 <= i < attempt ==> Within(attempts[i], start, start + SpanMs(|replies|, base))
    {
      AttemptWithin(start, base, replies, attempt);
      NextBegins(start, base, replies, attempt);
      attempts := attempts + [Interval(now, now + replies[attempt].took)];
      now := now + replies[attempt].took;
      if replies[attempt].ok {
        assert attempt + 1 == Used(replies);
        BeginsShift(start, base, replies, attempt);
        return true, attempts, now;
      }
      if attempt < |replies| - 1 {
        now := now + delay;
      }
      delay := 2 * delay;
      attempt := attempt + 1;
    }
    success, finished := false, now;
    assert |replies| == Used(replies);
    if replies != [] {
      BeginsShift(start, base, replies, |replies| - 1);
    }
  }

  // ---------------------------------------------------------------- the concurrency limiter

  /** The slot that frees first, of the first n. */
  function EarliestOf(slots: seq<nat>, n: nat): (k: nat)
    requires 0 < n <= |slots|
    ensures k < n && forall i :: 0 <= i < n ==> slots[k] <= slots[i]
    ensures forall i :: 0 <= i < k ==> slots[k] < slots[i]
  {
    if n == 1 then 0
    else
      var e := EarliestOf(slots, n - 1);
      if slots[n - 1] < slots[e] then n - 1 else e
  }

  /** When each slot frees after the first n batches have been dealt out in order. */
  function Slots(limit: nat, took: seq<nat>, n: nat): (slots: seq<nat>)
    requires limit > 0 && n <= |took|
    ensures |slots| == limit
  {
    if n == 0 then seq(limit, _ => 0) else Dealt(Slots(limit, took, n - 1), took[n - 1])
  }

  /** A batch of this duration goes to the slot that frees first. */
  function Dealt(slots: seq<nat>, took: nat): (slots': seq<nat>)
    requires slots != []
    ensures |slots'| == |slots|
  {
    var k := EarliestOf(slots, |slots|);
    slots[k := slots[k] + took]
  }

  /** pLimit(limit): batch n starts when a slot is free, in submission order. */
  function StartOf(limit: nat, took: seq<nat>, n: nat): nat
    requires limit > 0 && n < |took|
  {
    var slots := Slots(limit, took, n);
    slots[EarliestOf(slots, limit)]
  }

  ghost predicate AtMostEach(took: seq<nat>, span: nat) {
    forall i :: 0 <= i < |took| ==> took[i] <= span
  }

  /** A batch starts no earlier than the one before it. */
  lemma NextStart(limit: nat, took: seq<nat>, n: nat)
    requires limit > 0 && n + 1 < |took|
    ensures StartOf(limit, took, n) <= StartOf(limit, took, n + 1)
  {
    var slots, slots' := Slots(limit, took, n), Slots(limit, took, n + 1);
    assert forall i :: 0 <= i < limit ==> slots[i] <= slots'[i];
  }

  lemma {:induction false} StartsInOrder(limit: nat, took: seq<nat>, lo: nat, hi: nat)
    requires limit > 0 && lo <= hi < |took|
    ensures StartOf(limit, took, lo) <= StartOf(limit, took, hi)
    decreases hi - lo
  {
    hide StartOf;
    if lo < hi {
      StartsInOrder(limit, took, lo, hi - 1);
      NextStart(limit, took, hi - 1);
    }
  }

  lemma SlotsNext(limit: nat, took: seq<nat>, n: nat)
    requires limit > 0 && n < |took|
    ensures Slots(limit, took, n + 1) == Dealt(Slots(limit, took, n), took[n])
  {
  }

  /** Any two slots free within one span of each other. */
  ghost predicate Close(slots: seq<nat>, span: nat) {
    forall i, j :: 0 <= i < |slots| && 0 <= j < |slots| ==> slots[i] <= slots[j] + span
  }

  lemma DealKeepsClose(slots: seq<nat>, took: nat, span: nat)
    requires slots != [] && Close(slots, span) && took <= span
    ensures Close(Dealt(slots, took), span)
  {
    var k, slots' := EarliestOf(slots, |slots|), Dealt(slots, took);
    forall i, j | 0 <= i < |slots| && 0 <= j < |slots| ensures slots'[i] <= slots'[j] + span {
      assert slots[k] <= slots[i] <= slots[k] + span && slots[k] <= slots[j];
    }
  }

  lemma {:induction false} SlotsClose(limit: nat, took: seq<nat>, n: nat, span: nat)
    requires limit > 0 && n <= |took| && AtMostEach(took, span)
    ensures Close(Slots(limit, took, n), span)
  {
    hide Close, Dealt;
    if n > 0 {
      SlotsClose(limit, took, n - 1, span);
      DealKeepsClose(Slots(limit, took, n - 1), took[n - 1], span);
    } else {
      AllZeroClose(limit, span);
    }
  }

  lemma AllZeroClose(limit: nat, span: nat)
    ensures Close(seq(limit, _ => 0), span)
  {
  }

  /** How many slots are free by time v. */
  function FreeBy(slots: seq<nat>, v: nat): (k: nat)
    ensures k <= |slots|
  {
    if slots == [] then 0 else FreeBy(slots[..|slots| - 1], v) + if slots[|slots| - 1] <= v then 1 else 0
  }

  lemma {:induction false} FreeByUpdate(slots: seq<nat>, k: nat, x: nat, v: nat)
    requires k < |slots|
    ensures FreeBy(slots[k := x], v) + 1 >= FreeBy(slots, v)
    ensures x <= v ==> FreeBy(slots[k := x], v) >= FreeBy(slots, v)
    decreases |slots|
  {
    var n := |slots| - 1;
    if k < n {
      assert slots[k := x][..n] == slots[..n][k := x];
      FreeByUpdate(slots[..n], k, x, v);
    } else {
      assert slots[k := x][..n] == slots[..n];
    }
  }

  lemma {:induction false} FreeByAll(slots: seq<nat>, v: nat)
    ensures (forall i :: 0 <= i < |slots| ==> slots[i] <= v) ==> FreeBy(slots, v) == |slots|
    ensures FreeBy(slots, v) > 0 ==> exists i :: 0 <= i < |slots| && slots[i] <= v
    decreases |slots|
  {
    if slots != [] {
      FreeByAll(slots[..|slots| - 1], v);
    }
  }

  /** A batch dealt out takes at most one slot away from those free by v, and none if it ends by then. */
  lemma DealTakes(slots: seq<nat>, took: nat, v: nat)
    requires slots != []
    ensures FreeBy(Dealt(slots, took), v) + 1 >= FreeBy(slots, v)
    ensures slots[EarliestOf(slots, |slots|)] + took <= v ==> FreeBy(Dealt(slots, took), v) >= FreeBy(slots, v)
  {
    hide FreeBy;
    var k := EarliestOf(slots, |slots|);
    FreeByUpdate(slots, k, slots[k] + took, v);
  }

  lemma {:induction false} DealsTake(limit: nat, took: seq<nat>, n: nat, j: nat, v: nat)
    requires limit > 0 && n + j <= |took|
    ensures FreeBy(Slots(limit, took, n + j), v) + j >= FreeBy(Slots(limit, took, n), v)
  {
    hide Slots, FreeBy, Dealt;
    if j > 0 {
      DealsTake(limit, took, n, j - 1, v);
      SlotsNext(limit, took, n + j - 1);
      DealTakes(Slots(limit, took, n + j - 1), took[n + j - 1], v);
    }
  }

  lemma FreeMeansStart(limit: nat, took: seq<nat>, n: nat, v: nat)
    requires limit > 0 && n < |took| && FreeBy(Slots(limit, took, n), v) > 0
    ensures StartOf(limit, took, n) <= v
  {
    hide Slots, FreeBy;
    FreeByAll(Slots(limit, took, n), v);
  }

  lemma AllFreeAtStart(limit: nat, took: seq<nat>)
    requires limit > 0
    ensures FreeBy(Slots(limit, took, 0), 0) == limit
  {
    FreeByAll(seq(limit, _ => 0), 0);
  }

  /** One batch after another has started, all slots are still free by a span after that start. */
  lemma AllFreeSoon(limit: nat, took: seq<nat>, n: nat, span: nat)
    requires limit > 0 && n < |took| && AtMostEach(took, span)
    ensures FreeBy(Slots(limit, took, n + 1), StartOf(limit, took, n) + span) == limit
  {
    var slots, v := Slots(limit, took, n), StartOf(limit, took, n) + span;
    SlotsClose(limit, took, n, span);
    hide Slots, FreeBy, Dealt;
    FreeByAll(slots, v);
    SlotsNext(limit, took, n);
    DealTakes(slots, took[n], v);
  }

  /** The first `limit` batches start at once. */
  lemma FirstStarts(limit: nat, took: seq<nat>, n: nat)
    requires 0 <= n < limit && n < |took|
    ensures StartOf(limit, took, n) == 0
  {
    hide StartOf, Slots, FreeBy;
    AllFreeAtStart(limit, took);
    DealsTake(limit, took, 0, n, 0);
    FreeMeansStart(limit, took, n, 0);
  }

  /** Of any limit + 1 consecutive batches the last starts at most a span after the first. */
  lemma RoundWithin(limit: nat, took: seq<nat>, n: nat, j: nat, span: nat)
    requires limit > 0 && 0 < j <= limit && n + j < |took| && AtMostEach(took, span)
    ensures StartOf(limit, took, n + j) <= StartOf(limit, took, n) + span
  {
    hide Slots, StartOf, FreeBy;
    var v := StartOf(limit, took, n) + span;
    AllFreeSoon(limit, took, n, span);
    DealsTake(limit, took, n + 1, j - 1, v);
    FreeMeansStart(limit, took, n + j, v);
  }

  /** By how many spans the start of batch hi can come after that of batch lo: the first `limit` batches start together,
      later ones in rounds of `limit`. */
  function Rounds(limit: nat, lo: nat, hi: nat): nat
    requires limit > 0 && lo <= hi
  {
    if lo < limit then hi / limit else (hi - lo + limit - 1) / limit
  }

  lemma RoundsLess(limit: nat, lo: nat, hi: nat)
    requires limit > 0 && lo < hi && (if lo < limit then hi >= limit else true)
    ensures Rounds(limit, lo, hi) > 0
    ensures if hi - limit >= lo then Rounds(limit, lo, hi - limit) == Rounds(limit, lo, hi) - 1
      else Rounds(limit, lo, hi) == 1
  {
    var x := if lo < limit then hi else hi - lo + limit - 1;
    var y := x - limit;
    assert y == limit * (y / limit) + y % limit;
    Distribute(limit, y / limit, 1);
    Quotient(limit, y / limit + 1, y % limit, x);
    if hi - limit < lo {
      Quotient(limit, 0, y, y);
    }
  }

  lemma {:induction false} StartsWithin(limit: nat, took: seq<nat>, span: nat, lo: nat, hi: nat)
    requires limit > 0 && lo <= hi < |took| && AtMostEach(took, span)
    ensures StartOf(limit, took, lo) <= StartOf(limit, took, hi)
    ensures StartOf(limit, took, hi) <= StartOf(limit, took, lo) + span * Rounds(limit, lo, hi)
    decreases hi
  {
    hide StartOf, Rounds;
    StartsInOrder(limit, took, lo, hi);
    if hi < limit {
      FirstStarts(limit, took, hi);
      NonNegative(span, Rounds(limit, lo, hi));
    } else if lo < hi {
      RoundsLess(limit, lo, hi);
      Distribute(span, Rounds(limit, lo, hi) - 1, 1);
      NonNegative(span, Rounds(limit, lo, hi) - 1);
      if hi - limit >= lo {
        StartsWithin(limit, took, span, lo, hi - limit);
        RoundWithin(limit, took, hi - limit, limit, span);
      } else {
        RoundWithin(limit, took, lo, hi - lo, span);
      }
    } else {
      NonNegative(span, Rounds(limit, lo, hi));
    }
  }

  // ---------------------------------------------------------------- the bound is attained

  /** Slots after d batches of one duration each. */
  function Robin(limit: nat, span: nat, d: nat): (slots: seq<nat>)
    requires limit > 0
    ensures |slots| == limit
  {
    seq(limit, k requires 0 <= k < limit => Lap(limit, span, d, k))
  }

  function Lap(limit: nat, span: nat, d: nat, k: nat): (t: nat)
    requires limit > 0
    ensures t == span * (d / limit + if k < d % limit then 1 else 0)
  {
    var laps := d / limit + if k < d % limit then 1 else 0;
    NonNegative(span, laps);
    span * laps
  }

  lemma RobinEarliest(limit: nat, span: nat, d: nat)
    requires limit > 0
    ensures var slots := Robin(limit, span, d);
      && slots[EarliestOf(slots, limit)] == span * (d / limit)
      && (span > 0 ==> EarliestOf(slots, limit) == d % limit)
  {
    var slots, e, r := Robin(limit, span, d), EarliestOf(Robin(limit, span, d), limit), d % limit;
    assert slots[r] == span * (d / limit);
    Distribute(span, d / limit, 1);
  }

  lemma LapNext(limit: nat, span: nat, d: nat, k: nat)
    requires k < limit
    ensures Lap(limit, span, d + 1, k) == Lap(limit, span, d, k) + if k == d % limit then span else 0
  {
    var q, r := d / limit, d % limit;
    assert d + 1 == limit * q + (r + 1);
    if r + 1 == limit {
      assert (d + 1) / limit == q + 1 && (d + 1) % limit == 0 by { Quotient(limit, q + 1, 0, d + 1); }
    } else {
      assert (d + 1) / limit == q && (d + 1) % limit == r + 1 by { Quotient(limit, q, r + 1, d + 1); }
    }
    Distribute(span, q, 1);
  }

  lemma RobinNext(limit: nat, span: nat, d: nat)
    requires limit > 0
    ensures Dealt(Robin(limit, span, d), span) == Robin(limit, span, d + 1)
  {
    RobinEarliest(limit, span, d);
    var slots, next := Robin(limit, span, d), Robin(limit, span, d + 1);
    forall k | 0 <= k < limit ensures Dealt(slots, span)[k] == next[k] {
      LapNext(limit, span, d, k);
    }
  }

  /** The first `quick` batches take no time, the others a span each. */
  ghost predicate QuickThenSlow(took: seq<nat>, quick: nat, span: nat) {
    forall i :: 0 <= i < |took| ==> took[i] == if i < quick then 0 else span
  }

  lemma {:induction false} RobinSlots(limit: nat, took: seq<nat>, quick: nat, span: nat, n: nat)
    requires limit > 0 && n <= |took| && QuickThenSlow(took, quick, span)
    ensures Slots(limit, took, n) == Robin(limit, span, if n < quick then 0 else n - quick)
  {
    hide Robin, Dealt;
    if n == 0 || n <= quick {
      NothingDealt(limit, span);
      if n > 0 {
        RobinSlots(limit, took, quick, span, n - 1);
        NoTime(Robin(limit, span, 0));
      }
    } else {
      RobinSlots(limit, took, quick, span, n - 1);
      RobinNext(limit, span, n - 1 - quick);
    }
  }

  lemma NothingDealt(limit: nat, span: nat)
    requires limit > 0
    ensures Robin(limit, span, 0) == seq(limit, _ => 0)
  {
  }

  lemma NoTime(slots: seq<nat>)
    requires slots != []
    ensures Dealt(slots, 0) == slots
  {
  }

  lemma RobinStart(limit: nat, took: seq<nat>, quick: nat, span: nat, n: nat)
    requires limit > 0 && quick <= n < |took| && QuickThenSlow(took, quick, span)
    ensures StartOf(limit, took, n) == span * ((n - quick) / limit)
  {
    hide Robin, Slots, QuickThenSlow;
    RobinSlots(limit, took, quick, span, n);
    RobinEarliest(limit, span, n - quick);
  }

  /** With quick batches before the last `limit - 1` ones up to lo, batch hi comes as late after batch lo as it can. */
  lemma StartsApart(limit: nat, took: seq<nat>, span: nat, lo: nat, hi: nat)
    requires limit > 0 && lo <= hi < |took|
    requires QuickThenSlow(took, if lo < limit then 0 else lo + 1 - limit, span)
    ensures StartOf(limit, took, lo) == 0 && StartOf(limit, took, hi) == span * Rounds(limit, lo, hi)
  {
    hide StartOf, QuickThenSlow;
    var quick := if lo < limit then 0 else lo + 1 - limit;
    RobinStart(limit, took, quick, span, lo);
    RobinStart(limit, took, quick, span, hi);
    Quotient(limit, 0, lo - quick, lo - quick);
    assert hi - quick == if lo < limit then hi else hi - lo + limit - 1;
  }

  // ---------------------------------------------------------------- at most once

  /** How long each batch takes, given the replies to its attempts. */
  function Durations(base: nat, replies: seq<seq<Reply>>): (took: seq<nat>)
    ensures |took| == |replies|
  {
    seq(|replies|, c requires 0 <= c < |replies| => Took(base, replies[c]))
  }

  /** A SET, and the chunk, the attempt and the reading of that chunk it comes from. */
  datatype Sent = Sent(mark: Mark, chunk: int, attempt: int, index: int)

  predicate During(at: int, a: Interval) {
    a.begin <= at <= a.end
  }

  predicate SentFor(x: Sent, chunks: seq<seq<Reading>>) {
    0 <= x.chunk < |chunks| && 0 <= x.index < |chunks[x.chunk]| && KeyOf(chunks[x.chunk][x.index]) == x.mark.key
  }

  /** The SET reaches the store during an attempt that its chunk makes; the limiter says when the chunk starts. */
  ghost predicate Caused(x: Sent, chunks: seq<seq<Reading>>, limit: nat, base: nat, replies: seq<seq<Reply>>)
    requires limit > 0 && |replies| == |chunks|
  {
    && SentFor(x, chunks) && 0 <= x.attempt < Used(replies[x.chunk])
    && During(x.mark.at, Attempt(StartOf(limit, Durations(base, replies), x.chunk), base, replies[x.chunk], x.attempt))
  }

  /** Every batch has so many attempts, and each ends within the timeout. */
  ghost predicate Answered(replies: seq<seq<Reply>>, attempts: nat) {
    forall c :: 0 <= c < |replies| ==> |replies[c]| == attempts && Timely(replies[c])
  }

  ghost predicate AllCaused(sent: seq<Sent>, chunks: seq<seq<Reading>>, limit: nat, base: nat, replies: seq<seq<Reply>>)
    requires limit > 0 && |replies| == |chunks|
  {
    forall i :: 0 <= i < |sent| ==> Caused(sent[i], chunks, limit, base, replies)
  }

  /** An attempt sends each reading of its chunk once. */
  ghost predicate Distinct(sent: seq<Sent>) {
    forall i, j :: 0 <= i < j < |sent| ==>
      (sent[i].chunk, sent[i].attempt, sent[i].index) != (sent[j].chunk, sent[j].attempt, sent[j].index)
  }

  function Marks(sent: seq<Sent>): (marks: seq<Mark>)
    ensures |marks| == |sent| && forall i :: 0 <= i < |sent| ==> marks[i] == sent[i].mark
  {
    seq(|sent|, i requires 0 <= i < |sent| => sent[i].mark)
  }

  /** Reading i of chunk c has this key. */
  predicate Carries(chunks: seq<seq<Reading>>, c: int, i: int, key: string) {
    0 <= c < |chunks| && 0 <= i < |chunks[c]| && KeyOf(chunks[c][i]) == key
  }

  /** The chunks that hold a reading with this key are all among lo..hi. */
  ghost predicate KeyWithin(chunks: seq<seq<Reading>>, key: string, lo: nat, hi: nat) {
    forall c, i :: Carries(chunks, c, i, key) ==> lo <= c <= hi
  }

  lemma CausedWithin(x: Sent, chunks: seq<seq<Reading>>, limit: nat, base: nat, replies: seq<seq<Reply>>)
    requires limit > 0 && |replies| == |chunks| && Caused(x, chunks, limit, base, replies) && Timely(replies[x.chunk])
    ensures var start := StartOf(limit, Durations(base, replies), x.chunk);
      start <= x.mark.at <= start + SpanMs(|replies[x.chunk]|, base)
  {
    hide SpanMs, Begins, StartOf;
    AttemptWithin(StartOf(limit, Durations(base, replies), x.chunk), base, replies[x.chunk], x.attempt);
  }

  lemma SentInTime(limit: nat, took: seq<nat>, span: nat, lo: nat, c: nat, hi: nat, at: int, ttl: nat)
    requires limit > 0 && lo <= c <= hi < |took| && AtMostEach(took, span)
    requires StartOf(limit, took, c) <= at <= StartOf(limit, took, c) + span && span * (Rounds(limit, lo, hi) + 1) < ttl
    ensures StartOf(limit, took, lo) <= at < StartOf(limit, took, lo) + ttl
  {
    hide StartOf, Rounds;
    StartsWithin(limit, took, span, lo, hi);
    StartsInOrder(limit, took, lo, c);
    StartsInOrder(limit, took, c, hi);
    Distribute(span, Rounds(limit, lo, hi), 1);
  }

  lemma DurationsWithin(base: nat, replies: seq<seq<Reply>>, attempts: nat)
    requires Answered(replies, attempts)
    ensures AtMostEach(Durations(base, replies), SpanMs(attempts, base))
  {
    hide SpanMs, Took, Timely;
    forall c | 0 <= c < |replies| ensures Durations(base, replies)[c] <= SpanMs(attempts, base) {
      TookWithin(base, replies[c]);
    }
  }

  /** At most once through retries: each chunk of one send is posted by the retry loop, whatever replies it meets,
      under the limiter; the attempts' SETs reach the store in any order. A key whose readings lie in chunks lo..hi is
      accepted at most once when one span more than the rounds between these chunks fits within the ttl. */
  lemma AtMostOnce(chunks: seq<seq<Reading>>, limit: nat, attempts: nat, base: nat, replies: seq<seq<Reply>>,
                   sent: seq<Sent>, ttl: nat, key: string, lo: nat, hi: nat)
    requires limit > 0 && |replies| == |chunks| && lo <= hi < |chunks| && Answered(replies, attempts)
    requires AllCaused(sent, chunks, limit, base, replies) && KeyWithin(chunks, key, lo, hi)
    requires SpanMs(attempts, base) * (Rounds(limit, lo, hi) + 1) < ttl
    ensures Accepted(map[], Marks(sent), ttl, key) <= 1
  {
    hide SpanMs, StartOf, GenerateKey, Accepted, Took, Rounds;
    var span, took, marks := SpanMs(attempts, base), Durations(base, replies), Marks(sent);
    DurationsWithin(base, replies, attempts);
    var from := StartOf(limit, took, lo);
    forall i | 0 <= i < |marks| && marks[i].key == key ensures from <= marks[i].at < from + ttl {
      var x := sent[i];
      assert Caused(x, chunks, limit, base, replies) && Carries(chunks, x.chunk, x.index, key);
      CausedWithin(x, chunks, limit, base, replies);
      hide *;
      SentInTime(limit, took, span, lo, x.chunk, hi, x.mark.at, ttl);
    }
    WithinTtl(map[], marks, ttl, key, from);
  }

  // ---------------------------------------------------------------- and exactly then

  /** No run of the retry loops and the limiter has the key accepted twice. */
  ghost predicate AlwaysOnce(chunks: seq<seq<Reading>>, limit: nat, attempts: nat, base: nat, ttl: nat, key: string)
    requires limit > 0
  {
    forall replies, sent :: Sends(sent, chunks, limit, attempts, base, replies) ==>
      Accepted(map[], Marks(sent), ttl, key) <= 1
  }

  ghost predicate Sends(sent: seq<Sent>, chunks: seq<seq<Reading>>, limit: nat, attempts: nat, base: nat,
                        replies: seq<seq<Reply>>)
    requires limit > 0
  {
    && |replies| == |chunks| && Answered(replies, attempts)
    && AllCaused(sent, chunks, limit, base, replies) && Distinct(sent)
  }

  /** The key is on one reading only. */
  ghost predicate OneCopy(chunks: seq<seq<Reading>>, key: string) {
    forall c, i, d, j :: Carries(chunks, c, i, key) && Carries(chunks, d, j, key) ==> c == d && i == j
  }

  /** A batch none of whose attempts is ever answered, and one accepted at once. */
  function Slow(attempts: nat): seq<Reply> {
    seq(attempts, _ => Reply(false, TIMEOUT_MS))
  }

  function Fast(attempts: nat): seq<Reply> {
    seq(attempts, _ => Reply(true, 0))
  }

  lemma {:induction false} SlowBegins(start: int, base: nat, attempts: nat, i: nat)
    requires i <= attempts
    ensures Begins(start, base, Slow(attempts), i) == start + i * TIMEOUT_MS + base * (Pow2(i) - 1)
  {
    if i > 0 {
      SlowBegins(start, base, attempts, i - 1);
      Distribute(base, Pow2(i - 1) - 1, Pow2(i - 1));
    }
  }

  lemma SlowTakes(start: int, base: nat, attempts: nat)
    requires attempts > 0
    ensures Used(Slow(attempts)) == attempts && Timely(Slow(attempts))
    ensures Attempt(start, base, Slow(attempts), attempts - 1).end == start + SpanMs(attempts, base)
    ensures Attempt(start, base, Slow(attempts), 0).begin == start
    ensures Took(base, Slow(attempts)) == SpanMs(attempts, base)
  {
    SlowBegins(start, base, attempts, attempts - 1);
    SlowBegins(0, base, attempts, attempts - 1);
  }

  lemma FastTakes(base: nat, attempts: nat)
    requires attempts > 0
    ensures Used(Fast(attempts)) == 1 && Timely(Fast(attempts)) && Took(base, Fast(attempts)) == 0
  {
  }

  /** The replies under which batch hi comes latest. */
  function Latest(n: nat, quick: nat, attempts: nat): (replies: seq<seq<Reply>>)
    ensures |replies| == n && forall c :: 0 <= c < n ==>
      replies[c] == if c < quick then Fast(attempts) else Slow(attempts)
  {
    seq(n, c => if c < quick then Fast(attempts) else Slow(attempts))
  }

  lemma LatestStarts(n: nat, limit: nat, attempts: nat, base: nat, lo: nat, hi: nat) returns (replies: seq<seq<Reply>>)
    requires limit > 0 && attempts > 0 && lo <= hi < n
    ensures |replies| == n && Answered(replies, attempts) && replies[lo] == replies[hi] == Slow(attempts)
    ensures StartOf(limit, Durations(base, replies), lo) == 0
    ensures StartOf(limit, Durations(base, replies), hi) == SpanMs(attempts, base) * Rounds(limit, lo, hi)
  {
    hide StartOf, Rounds, SpanMs, Took, Slow, Fast, Used, Begins, Timely;
    var quick := if lo < limit then 0 else lo + 1 - limit;
    replies := Latest(n, quick, attempts);
    SlowTakes(0, base, attempts);
    FastTakes(base, attempts);
    SlowLength(attempts);
    StartsApart(limit, Durations(base, replies), SpanMs(attempts, base), lo, hi);
  }

  lemma SlowLength(attempts: nat)
    ensures |Slow(attempts)| == |Fast(attempts)| == attempts
  {
  }

  lemma TwoMarks(key: string, a: int, b: int, ttl: nat)
    requires b >= a + ttl
    ensures Accepted(map[], [Mark(key, a), Mark(key, b)], ttl, key) == 2
  {
    var marks := [Mark(key, a), Mark(key, b)];
    NextMark(map[], marks, 0, ttl);
    NextMark(map[], marks, 1, ttl);
    assert marks[..0] == [] && marks[..2] == marks;
  }

  /** Two different SETs of the key, from the first attempt of chunk lo and the last of chunk hi, that are both accepted
      when all attempts run into the timeout. */
  lemma AcceptedTwice(chunks: seq<seq<Reading>>, limit: nat, attempts: nat, base: nat, ttl: nat, key: string,
                      lo: nat, i: nat, hi: nat, j: nat)
    requires limit > 0 && attempts > 0 && lo <= hi && Carries(chunks, lo, i, key) && Carries(chunks, hi, j, key)
    requires (lo, 0, i) != (hi, attempts - 1, j) && SpanMs(attempts, base) * (Rounds(limit, lo, hi) + 1) >= ttl
    ensures !AlwaysOnce(chunks, limit, attempts, base, ttl, key)
  {
    hide StartOf, Rounds, SpanMs, Took, Slow, Used, Begins, Timely, GenerateKey, Accepted;
    var span, rounds := SpanMs(attempts, base), Rounds(limit, lo, hi);
    var replies := LatestStarts(|chunks|, limit, attempts, base, lo, hi);
    SlowLength(attempts);
    SlowTakes(0, base, attempts);
    SlowTakes(span * rounds, base, attempts);
    Distribute(span, rounds, 1);
    var end := span * (rounds + 1);
    var x, y := Sent(Mark(key, 0), lo, 0, i), Sent(Mark(key, end), hi, attempts - 1, j);
    assert Caused(x, chunks, limit, base, replies) && Caused(y, chunks, limit, base, replies);
    assert Sends([x, y], chunks, limit, attempts, base, replies);
    TwoMarks(key, 0, end, ttl);
    assert Marks([x, y]) == [Mark(key, 0), Mark(key, end)];
  }

  lemma OneSet(chunks: seq<seq<Reading>>, limit: nat, base: nat, ttl: nat, key: string, replies: seq<seq<Reply>>,
               sent: seq<Sent>)
    requires limit > 0 && ttl > 0 && OneCopy(chunks, key) && Sends(sent, chunks, limit, 1, base, replies)
    ensures Accepted(map[], Marks(sent), ttl, key) <= 1
  {
    hide StartOf, GenerateKey, Accepted, Used, Begins, Durations;
    var marks := Marks(sent);
    forall i, j | 0 <= i < |sent| && 0 <= j < |sent| && marks[i].key == marks[j].key == key ensures i == j {
      var x, y := sent[i], sent[j];
      assert Caused(x, chunks, limit, base, replies) && Caused(y, chunks, limit, base, replies);
      assert Carries(chunks, x.chunk, x.index, key) && Carries(chunks, y.chunk, y.index, key);
      assert Used(replies[x.chunk]) <= 1;
    }
    if i :| 0 <= i < |sent| && marks[i].key == key {
      WithinTtl(map[], marks, ttl, key, marks[i].at);
    } else {
      WithinTtl(map[], marks, ttl, key, 0);
    }
  }

  /** A key whose first and last readings are in chunks lo and hi is accepted at most once, whatever the attempts
      meet, if and only if the rounds between these chunks and one more span fit within the deduplication ttl (or
      there is but one SET of the key at all: a single attempt for a single copy). */
  lemma AtMostOnceExact(chunks: seq<seq<Reading>>, limit: nat, attempts: nat, base: nat, ttl: nat, key: string,
                        lo: nat, i: nat, hi: nat, j: nat)
    requires limit > 0 && ttl > 0 && KeyWithin(chunks, key, lo, hi)
    requires Carries(chunks, lo, i, key) && Carries(chunks, hi, j, key)
    ensures AlwaysOnce(chunks, limit, attempts, base, ttl, key) <==>
      SpanMs(attempts, base) * (Rounds(limit, lo, hi) + 1) < ttl || (attempts == 1 && OneCopy(chunks, key))
  {
    hide AllCaused, Answered, Distinct, Accepted, GenerateKey, Rounds;
    if attempts == 0 || SpanMs(attempts, base) * (Rounds(limit, lo, hi) + 1) < ttl {
      hide SpanMs;
      forall replies, sent | Sends(sent, chunks, limit, attempts, base, replies)
        ensures Accepted(map[], Marks(sent), ttl, key) <= 1
      {
        AtMostOnce(chunks, limit, attempts, base, replies, sent, ttl, key, lo, hi);
      }
    } else if attempts == 1 && OneCopy(chunks, key) {
      forall replies, sent | Sends(sent, chunks, limit, attempts, base, replies)
        ensures Accepted(map[], Marks(sent), ttl, key) <= 1
      {
        OneSet(chunks, limit, base, ttl, key, replies, sent);
      }
    } else if attempts > 1 || (lo, i) != (hi, j) {
      AcceptedTwice(chunks, limit, attempts, base, ttl, key, lo, i, hi, j);
    } else {
      var c, k, d, l :| Carries(chunks, c, k, key) && Carries(chunks, d, l, key) && (c, k) != (d, l);
      AcceptedTwice(chunks, limit, attempts, base, ttl, key, lo, k, hi, l);
    }
  }

  /** The shipped defaults, 3 attempts 1000 ms apart against a 60 s ttl, do not satisfy the bound even for one chunk. */
  lemma DefaultsMissTheBound(limit: nat, lo: nat, hi: nat)
    requires limit > 0 && lo <= hi
    ensures SpanMs(3, 1000) == 93000 && SpanMs(3, 1000) * (Rounds(limit, lo, hi) + 1) > 60000
  {
    hide Rounds;
    assert Pow2(2) == 4;
  }
}

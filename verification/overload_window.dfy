// The sliding overload window of the alert service: a list of timestamps per region that Redis drops
// 600 s after the last append, counted over the last 300 s.

module OverloadWindow {
  import opened Text

  const WINDOW_MS := 300000
  const TTL_MS := 600000
  const OVERLOAD_PERCENT := 90.0

  /** One over-threshold aggregate: its event time and the instant it was processed. */
  datatype Overload = Overload(region: string, timestamp: int, at: int)

  /** The stored list and the instant at which it expires. */
  datatype Entry = Entry(windows: seq<int>, expiry: int)

  type Lists = map<string, Entry>

  predicate Live(lists: Lists, region: string, now: int) {
    region in lists && now < lists[region].expiry
  }

  /** addOverloadWindow */
  function Append(lists: Lists, o: Overload): Lists {
    var existing := if Live(lists, o.region, o.at) then lists[o.region].windows else [];
    lists[o.region := Entry(existing + [o.timestamp], o.at + TTL_MS)]
  }

  function ListsAfter(history: seq<Overload>): Lists {
    if history == [] then map[] else Append(ListsAfter(history[..|history| - 1]), history[|history| - 1])
  }

  function CountFrom(windows: seq<int>, cutoff: int): nat {
    if windows == [] then 0
    else CountFrom(windows[..|windows| - 1], cutoff) + if windows[|windows| - 1] >= cutoff then 1 else 0
  }

  /** How many over-threshold aggregates of the region in the whole history are no older than cutoff. */
  function HistoryCount(history: seq<Overload>, region: string, cutoff: int): nat {
    if history == [] then 0
    else
      var last := history[|history| - 1];
      HistoryCount(history[..|history| - 1], region, cutoff) +
      if last.region == region && last.timestamp >= cutoff then 1 else 0
  }

  /** Aggregates are processed in order of their processing instants. */
  ghost predicate InOrder(history: seq<Overload>) {
    forall i, j :: 0 <= i < j < |history| ==> history[i].at <= history[j].at
  }

  /** Event times run ahead of processing by less than `skew` ms. */
  ghost predicate SkewBelow(history: seq<Overload>, skew: int) {
    forall i :: 0 <= i < |history| ==> history[i].timestamp < history[i].at + skew
  }

  lemma {:induction false} NothingRecent(history: seq<Overload>, region: string, cutoff: int)
    requires forall i :: 0 <= i < |history| && history[i].region == region ==> history[i].timestamp < cutoff
    ensures HistoryCount(history, region, cutoff) == 0
  {
    if history != [] {
      var init := history[..|history| - 1];
      assert forall i :: 0 <= i < |init| ==> init[i] == history[i];
      NothingRecent(init, region, cutoff);
    }
  }

  lemma {:induction false} LastAppend(history: seq<Overload>, region: string)
    requires InOrder(history)
    ensures var lists := ListsAfter(history);
      forall i :: 0 <= i < |history| && history[i].region == region ==>
        region in lists && history[i].at + TTL_MS <= lists[region].expiry
    ensures region in ListsAfter(history) ==>
      exists i :: 0 <= i < |history| && ListsAfter(history)[region].expiry == history[i].at + TTL_MS
  {
    if history != [] {
      var init, last := history[..|history| - 1], history[|history| - 1];
      assert forall i :: 0 <= i < |init| ==> init[i] == history[i];
      LastAppend(init, region);
      if last.region != region && region in ListsAfter(init) {
        var i :| 0 <= i < |init| && ListsAfter(init)[region].expiry == init[i].at + TTL_MS;
        assert history[i] == init[i];
      }
    }
  }

  /** The stored list agrees with the whole history from any cutoff within 300 s of the last append,
      although appends after a gap start it anew. */
  lemma {:induction false} ListExact(history: seq<Overload>, region: string, cutoff: int)
    requires InOrder(history) && SkewBelow(history, TTL_MS - WINDOW_MS)
    requires region in ListsAfter(history) ==> cutoff >= ListsAfter(history)[region].expiry - TTL_MS - WINDOW_MS
    ensures region in ListsAfter(history) ==>
      CountFrom(ListsAfter(history)[region].windows, cutoff) == HistoryCount(history, region, cutoff)
  {
    if history != [] {
      var init, last := history[..|history| - 1], history[|history| - 1];
      HistorySplits(history);
      LastEvent(history, region, cutoff);
      hide CountFrom, HistoryCount, ListsAfter, InOrder, SkewBelow;
      if last.region == region {
        if Live(ListsAfter(init), region, last.at) {
          ExpiryBefore(init, last);
          ListExact(init, region, cutoff);
        }
        AppendExact(init, last, cutoff);
      } else {
        ListExact(init, region, cutoff);
      }
    }
  }

  lemma HistorySplits(history: seq<Overload>)
    requires history != [] && InOrder(history) && SkewBelow(history, TTL_MS - WINDOW_MS)
    ensures var init, last := history[..|history| - 1], history[|history| - 1];
      history == init + [last] && InOrder(init) && SkewBelow(init, TTL_MS - WINDOW_MS)
  {
    var init := history[..|history| - 1];
    assert forall i :: 0 <= i < |init| ==> init[i] == history[i];
  }

  /** What the last aggregate does to the list and the count of a region. */
  lemma LastEvent(history: seq<Overload>, region: string, cutoff: int)
    requires history != []
    ensures var init, last := history[..|history| - 1], history[|history| - 1];
      && HistoryCount(history, region, cutoff) ==
           HistoryCount(init, region, cutoff) + (if last.region == region && last.timestamp >= cutoff then 1 else 0)
      && ListsAfter(history) == Append(ListsAfter(init), last)
  {
  }

  lemma ExpiryBefore(init: seq<Overload>, last: Overload)
    requires InOrder(init + [last]) && InOrder(init) && last.region in ListsAfter(init)
    ensures ListsAfter(init)[last.region].expiry <= last.at + TTL_MS
  {
    hide ListsAfter;
    LastAppend(init, last.region);
    var i :| 0 <= i < |init| && ListsAfter(init)[last.region].expiry == init[i].at + TTL_MS;
    assert (init + [last])[i] == init[i] && (init + [last])[|init|] == last;
  }

  lemma CountSnoc(windows: seq<int>, t: int, cutoff: int)
    ensures CountFrom(windows + [t], cutoff) == CountFrom(windows, cutoff) + if t >= cutoff then 1 else 0
  {
    assert (windows + [t])[..|windows|] == windows;
  }

  lemma AppendExact(init: seq<Overload>, last: Overload, cutoff: int)
    requires InOrder(init + [last]) && InOrder(init) && SkewBelow(init, TTL_MS - WINDOW_MS)
    requires cutoff >= last.at - WINDOW_MS
    requires last.region in ListsAfter(init) && Live(ListsAfter(init), last.region, last.at) ==>
      CountFrom(ListsAfter(init)[last.region].windows, cutoff) == HistoryCount(init, last.region, cutoff)
    ensures CountFrom(Append(ListsAfter(init), last)[last.region].windows, cutoff) ==
      HistoryCount(init, last.region, cutoff) + if last.timestamp >= cutoff then 1 else 0
  {
    hide ListsAfter, HistoryCount, CountFrom;
    var lists := ListsAfter(init);
    if Live(lists, last.region, last.at) {
      CountSnoc(lists[last.region].windows, last.timestamp, cutoff);
    } else {
      Forgotten(init, last.region, last.at, cutoff);
      CountSnoc([], last.timestamp, cutoff);
      CountNone(cutoff);
    }
  }

  lemma CountNone(cutoff: int)
    ensures CountFrom([], cutoff) == 0
  {
  }

  lemma Forgotten(history: seq<Overload>, region: string, now: int, cutoff: int)
    requires InOrder(history) && SkewBelow(history, TTL_MS - WINDOW_MS)
    requires !Live(ListsAfter(history), region, now) && cutoff >= now - WINDOW_MS
    ensures HistoryCount(history, region, cutoff) == 0
  {
    LastAppend(history, region);
    forall i | 0 <= i < |history| && history[i].region == region ensures history[i].timestamp < cutoff {
      assert history[i].at + TTL_MS <= ListsAfter(history)[region].expiry <= now;
    }
    NothingRecent(history, region, cutoff);
  }

  /** getOverloadWindowCount(region, 300000) */
  function WindowCount(lists: Lists, region: string, now: int): nat {
    if Live(lists, region, now) then CountFrom(lists[region].windows, now - WINDOW_MS) else 0
  }

  /** The count is that of the whole history, whatever gaps it has, as long as event times run ahead
      of processing by less than 300 s. */
  lemma CountExact(history: seq<Overload>, region: string, now: int)
    requires InOrder(history) && SkewBelow(history, TTL_MS - WINDOW_MS)
    requires forall i :: 0 <= i < |history| ==> history[i].at <= now
    ensures WindowCount(ListsAfter(history), region, now) == HistoryCount(history, region, now - WINDOW_MS)
  {
    if Live(ListsAfter(history), region, now) {
      LastAppend(history, region);
      var i :| 0 <= i < |history| && ListsAfter(history)[region].expiry == history[i].at + TTL_MS;
      ListExact(history, region, now - WINDOW_MS);
    } else {
      Forgotten(history, region, now, now - WINDOW_MS);
    }
  }

  lemma ListsSnoc(history: seq<Overload>, o: Overload)
    ensures ListsAfter(history + [o]) == Append(ListsAfter(history), o)
    ensures forall region, cutoff ::
      HistoryCount(history + [o], region, cutoff) ==
      HistoryCount(history, region, cutoff) + if o.region == region && o.timestamp >= cutoff then 1 else 0
  {
    assert (history + [o])[..|history|] == history;
  }

  lemma AppendAfterGap(lists: Lists, o: Overload, cutoff: int)
    requires !Live(lists, o.region, o.at)
    ensures CountFrom(Append(lists, o)[o.region].windows, cutoff) == if o.timestamp >= cutoff then 1 else 0
  {
    CountSnoc([], o.timestamp, cutoff);
  }

  /** The bound on event times is the best possible: one aggregate stamped exactly 300 s ahead can be
      forgotten while still inside the window. */
  lemma SkewBoundIsTight(a: Overload, b: Overload)
    requires a.region == b.region && a.timestamp == a.at + TTL_MS - WINDOW_MS && b.timestamp == b.at == a.at + TTL_MS
    ensures InOrder([] + [a] + [b]) && SkewBelow([] + [a] + [b], TTL_MS - WINDOW_MS + 1)
    ensures WindowCount(ListsAfter([] + [a] + [b]), a.region, b.at) == 1
    ensures HistoryCount([] + [a] + [b], a.region, b.at - WINDOW_MS) == 2
  {
    hide CountFrom, ListsAfter, HistoryCount;
    ListsSnoc([], a);
    ListsSnoc([] + [a], b);
    NothingRecent([], a.region, b.at - WINDOW_MS);
    AppendAfterGap(ListsAfter([] + [a]), b, b.at - WINDOW_MS);
  }

  /** The aggregates of the region no older than a cutoff, by their positions in the history. */
  ghost function Recent(history: seq<Overload>, region: string, cutoff: int): set<nat> {
    set i: nat | i < |history| && history[i].region == region && cutoff <= history[i].timestamp
  }

  lemma {:induction false} HistoryIsRecent(history: seq<Overload>, region: string, cutoff: int)
    ensures HistoryCount(history, region, cutoff) == |Recent(history, region, cutoff)|
    decreases |history|
  {
    if history != [] {
      var n := |history| - 1;
      HistoryIsRecent(history[..n], region, cutoff);
      var before, last := Recent(history[..n], region, cutoff), history[n];
      assert Recent(history, region, cutoff) ==
        before + if last.region == region && cutoff <= last.timestamp then {n} else {};
    }
  }

  class OverloadStore {
    var lists: Lists
    /** every over-threshold aggregate appended so far */
    ghost var history: seq<Overload>

    ghost predicate Valid()
      reads this
    {
      lists == ListsAfter(history) && InOrder(history)
    }

    constructor ()
      ensures Valid() && history == []
    {
      lists, history := map[], [];
    }

    method AddOverloadWindow(region: string, timestamp: int, now: int)
      requires Valid() && forall i :: 0 <= i < |history| ==> history[i].at <= now
      modifies this
      ensures Valid() && history == old(history) + [Overload(region, timestamp, now)]
      ensures region in lists && lists[region].expiry == now + 600000
    {
      var windows := if region in lists && now < lists[region].expiry then lists[region].windows else [];
      windows := windows + [timestamp];
      lists := lists[region := Entry(windows, now + TTL_MS)];
      history := history + [Overload(region, timestamp, now)];
      assert history[..|history| - 1] == old(history);
    }

    method GetOverloadWindowCount(region: string, now: int) returns (count: nat)
      ensures count == WindowCount(lists, region, now)
    {
      if region !in lists || now >= lists[region].expiry {
        return 0;
      }
      var windows, cutoff := lists[region].windows, now - WINDOW_MS;
      count := 0;
      assert windows[..0] == [];
      for i := 0 to |windows|
        invariant count == CountFrom(windows[..i], cutoff)
      {
        assert windows[..i + 1][..i] == windows[..i];
        if windows[i] >= cutoff {
          count := count + 1;
        }
      }
      assert windows[..|windows|] == windows;
    }

    /** The first half of processRegionalAggregate's overload check: only a load above the threshold
        is recorded, and the count then includes it. */
    method RecordLoad(region: string, load: real, timestamp: int, addedAt: int, countedAt: int)
      returns (count: Option<nat>)
      requires Valid() && addedAt <= countedAt && forall i :: 0 <= i < |history| ==> history[i].at <= addedAt
      modifies this
      ensures Valid() && (count.Some? <==> load > 90.0)
      ensures count.None? ==> history == old(history)
      ensures count.Some? ==> history == old(history) + [Overload(region, timestamp, addedAt)]
      ensures count.Some? && SkewBelow(history, TTL_MS - WINDOW_MS) ==>
        count.value == HistoryCount(history, region, countedAt - WINDOW_MS) ==
        |Recent(history, region, countedAt - 300000)|
    {
      hide HistoryCount, Recent, ListsAfter, WindowCount, SkewBelow;
      if load > OVERLOAD_PERCENT {
        AddOverloadWindow(region, timestamp, addedAt);
        var n := GetOverloadWindowCount(region, countedAt);
        count := Some(n);
        if SkewBelow(history, TTL_MS - WINDOW_MS) {
          CountExact(history, region, countedAt);
          HistoryIsRecent(history, region, countedAt - WINDOW_MS);
        }
      } else {
        count := None;
      }
    }
  }
}

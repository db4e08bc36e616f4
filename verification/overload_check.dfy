// AggregateHelper.checkRegionalOverload: the overload count and the alert markers together.

module OverloadCheck {
  import opened OverloadWindow
  import AlertMarkers

  const CONSECUTIVE_WINDOWS := 2

  function Overloaded(region: string): AlertMarkers.Subject {
    AlertMarkers.Subject("REGIONAL_OVERLOAD", region, "")
  }

  /** At least two over-threshold aggregates of the region, the last one included, are stamped within the last 300 s. */
  predicate Due(history: seq<Overload>, region: string, load: real, countedAt: int) {
    load > OVERLOAD_PERCENT && HistoryCount(history, region, countedAt - WINDOW_MS) >= CONSECUTIVE_WINDOWS
  }

  /** Due, in terms of the aggregates themselves. */
  lemma DueMeans(history: seq<Overload>, region: string, load: real, countedAt: int)
    ensures Due(history, region, load, countedAt) <==>
      load > 90.0 && |Recent(history, region, countedAt - 300000)| >= 2
  {
    HistoryIsRecent(history, region, countedAt - WINDOW_MS);
  }

  /** Raising fails: no active marker exists, and the deduplication rejects the alert or its publish fails. */
  predicate Rejected(s: AlertMarkers.State, raise: AlertMarkers.Step)
    requires raise.Raise?
  {
    && !AlertMarkers.Live(s.active, AlertMarkers.ActiveKey(raise.about), raise.t.activeCheck)
    && (!raise.published || AlertMarkers.Live(s.dedup, AlertMarkers.DedupKey(raise.about), raise.t.dedupCheck))
  }

  /** A raise inserts its alert just when neither marker is live, and otherwise no alert at all. */
  lemma RaiseInserts(s: AlertMarkers.State, ttl: nat, a: AlertMarkers.Subject, t: AlertMarkers.Times, published: bool)
    ensures var raise := AlertMarkers.Raise(a, t, published);
      AlertMarkers.Next(s, ttl, raise).alerts ==
      if AlertMarkers.Inserts(s, raise) then s.alerts + [AlertMarkers.Inserted(a, t.insert)] else s.alerts
  {
    hide AlertMarkers.DedupKey, AlertMarkers.ActiveKey;
  }

  /**
   * The overload half of processRegionalAggregate. An alert is inserted if and only if the load is above the
   * threshold, it is at least the second such aggregate of the region in the last 300 s of the whole history, and
   * neither an active nor a deduplication marker is live. The call fails just when the alert is due and raising it
   * fails.
   */
  method CheckRegionalOverload(store: OverloadStore, manager: AlertMarkers.AlertManager, region: string, load: real,
                               timestamp: int, addedAt: int, countedAt: int, t: AlertMarkers.Times, published: bool)
    returns (failed: bool)
    requires store.Valid() && addedAt <= countedAt
    requires forall i :: 0 <= i < |store.history| ==> store.history[i].at <= addedAt
    modifies store, manager
    ensures store.Valid()
    ensures store.history ==
      if load > 90.0 then old(store.history) + [Overload(region, timestamp, addedAt)] else old(store.history)
    ensures var about := AlertMarkers.Subject("REGIONAL_OVERLOAD", region, "");
      var raise := AlertMarkers.Raise(about, t, published);
      var was, ttl := old(manager.Abstract()), manager.deduplicationTtl;
      var due := load > 90.0 && |Recent(store.history, region, countedAt - 300000)| >= 2;
      SkewBelow(store.history, 300000) ==>
        && manager.Abstract() == (if due then AlertMarkers.Next(was, ttl, raise) else was)
        && manager.alerts ==
           (if due && AlertMarkers.Inserts(was, raise) then was.alerts + [AlertMarkers.Inserted(about, t.insert)]
            else was.alerts)
        && (failed <==> due && Rejected(was, raise))
  {
    hide AlertMarkers.Next, AlertMarkers.DedupKey, AlertMarkers.ActiveKey, HistoryCount;
    ghost var was, ttl := manager.Abstract(), manager.deduplicationTtl;
    var count := store.RecordLoad(region, load, timestamp, addedAt, countedAt);
    failed := false;
    if count.Some? && count.value >= CONSECUTIVE_WINDOWS {
      failed := manager.RaiseUnlessActive(Overloaded(region), t, published);
      RaiseInserts(was, ttl, Overloaded(region), t, published);
    }
    DueMeans(store.history, region, load, countedAt);
    assert manager.alerts == manager.Abstract().alerts;
  }
}

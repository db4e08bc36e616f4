// Silent meters: the last-seen keys of the cache, and the outage alerts raised for them.

module MeterOutages {
  import opened AlertMarkers

  /** 3600 seconds, in milliseconds. */
  const LAST_SEEN_TTL := 3600000

  datatype Seen = Seen(region: string, at: int, expiry: int)

  /** The `last_seen:<meter>` keys. */
  type LastSeen = map<string, Seen>

  /** The key is still there and its timestamp lies before the cutoff. */
  predicate Inactive(seen: LastSeen, meter: string, now: int, threshold: int) {
    meter in seen && now < seen[meter].expiry && seen[meter].at < now - threshold
  }

  /** A silent meter of the region that the aggregate does not list as active. */
  predicate Outaged(seen: LastSeen, meter: string, region: string, active: seq<string>, now: int, threshold: int) {
    Inactive(seen, meter, now, threshold) && seen[meter].region == region && meter !in active
  }

  function Outage(region: string, meter: string): Subject {
    Subject("METER_OUTAGE", region, meter)
  }

  /** All parts of one raised alert at one instant. */
  function AtOnce(now: int): Times {
    Times(now, now, now, now, now)
  }

  /** Raising stops the whole check: the publish fails, or a deduplication marker is live without an active one. */
  predicate Fails(s: State, a: Subject, now: int, publishFails: bool) {
    !Live(s.active, ActiveKey(a), now) && (publishFails || Live(s.dedup, DedupKey(a), now))
  }

  /** Outage markers of one region are told apart by the meter, whatever characters it has. */
  lemma OutageKeys(region: string, m: string, n: string)
    ensures ActiveKey(Outage(region, m)) == ActiveKey(Outage(region, n)) <==> m == n
    ensures DedupKey(Outage(region, m)) == DedupKey(Outage(region, n)) <==> m == n
  {
    var p := "alerts:active:" + region + ":" + "METER_OUTAGE";
    var q := "dedup:" + "METER_OUTAGE" + ":" + RegionOrGlobal(Outage(region, m));
    SuffixTellsApart(p, m, n);
    SuffixTellsApart(q, m, n);
    assert ActiveKey(Outage(region, m)) == p + Suffix(m) && ActiveKey(Outage(region, n)) == p + Suffix(n);
    assert DedupKey(Outage(region, m)) == q + Suffix(m) && DedupKey(Outage(region, n)) == q + Suffix(n);
  }

  function Suffix(m: string): string {
    if m == "" then "" else ":" + m
  }

  lemma SuffixTellsApart(p: string, m: string, n: string)
    ensures p + Suffix(m) == p + Suffix(n) <==> m == n
  {
    var x, y := p + Suffix(m), p + Suffix(n);
    assert x[|p|..] == Suffix(m) && y[|p|..] == Suffix(n);
    assert m != "" ==> Suffix(m)[1..] == m;
    assert n != "" ==> Suffix(n)[1..] == n;
  }

  /** Raising an outage alert for m leaves the markers of the other meters of the region alone. */
  lemma OthersUntouched(s: State, ttl: nat, region: string, m: string, n: string, now: int, published: bool)
    requires m != n
    ensures var s' := Next(s, ttl, Raise(Outage(region, m), AtOnce(now), published));
      && (Live(s'.active, ActiveKey(Outage(region, n)), now) <==> Live(s.active, ActiveKey(Outage(region, n)), now))
      && (Live(s'.dedup, DedupKey(Outage(region, n)), now) <==> Live(s.dedup, DedupKey(Outage(region, n)), now))
  {
    hide DedupKey, ActiveKey;
    OutageKeys(region, m, n);
  }

  lemma RaiseEffect(s: State, ttl: nat, a: Subject, now: int, published: bool)
    ensures var s' := Next(s, ttl, Raise(a, AtOnce(now), published));
      && (!Fails(s, a, now, !published) ==> Live(s'.active, ActiveKey(a), now))
      && (!Fails(s, a, now, !published) && !Live(s.active, ActiveKey(a), now) ==>
          s'.alerts == s.alerts + [Inserted(a, now)])
      && (Live(s.active, ActiveKey(a), now) ==> s'.alerts == s.alerts)
      && (s'.alerts == s.alerts || s'.alerts == s.alerts + [Inserted(a, now)])
  {
    hide DedupKey, ActiveKey;
  }

  /** An alert about the meter stands in the table from position n on. */
  predicate AlertedSince(alerts: seq<Inserted>, n: nat, region: string, meter: string) {
    exists i :: n <= i < |alerts| && alerts[i].about == Outage(region, meter)
  }

  lemma AlertedSnoc(alerts: seq<Inserted>, x: Inserted, n: nat, region: string, meter: string)
    requires n <= |alerts|
    ensures AlertedSince(alerts + [x], n, region, meter) <==>
      AlertedSince(alerts, n, region, meter) || x.about == Outage(region, meter)
  {
    var longer := alerts + [x];
    if AlertedSince(alerts, n, region, meter) {
      var i :| n <= i < |alerts| && alerts[i].about == Outage(region, meter);
      assert longer[i] == alerts[i];
    }
    assert longer[|alerts|] == x;
  }

  /** Raising for m keeps the answers for the other meters. */
  lemma AnswersKept(before: State, s: State, ttl: nat, region: string, m: string, n: string, now: int, published: bool)
    requires m != n && before.alerts <= s.alerts && Answered(before, s, region, n, now)
    ensures Answered(before, Next(s, ttl, Raise(Outage(region, m), AtOnce(now), published)), region, n, now)
  {
    hide ActiveKey, DedupKey, Next, Live, AlertedSince;
    OthersUntouched(s, ttl, region, m, n, now, published);
    RaiseEffect(s, ttl, Outage(region, m), now, published);
    AlertedSnoc(s.alerts, Inserted(Outage(region, m), now), |before.alerts|, region, n);
  }

  /** A raise that does not fail answers for its meter. */
  lemma AnswerGiven(before: State, s: State, ttl: nat, region: string, m: string, now: int, published: bool)
    requires before.alerts <= s.alerts && !AlertedSince(s.alerts, |before.alerts|, region, m)
    requires !Fails(s, Outage(region, m), now, !published)
    requires Live(s.active, ActiveKey(Outage(region, m)), now) <==>
      Live(before.active, ActiveKey(Outage(region, m)), now)
    ensures Answered(before, Next(s, ttl, Raise(Outage(region, m), AtOnce(now), published)), region, m, now)
  {
    hide ActiveKey, DedupKey, Next, Live, AlertedSince, Fails;
    RaiseEffect(s, ttl, Outage(region, m), now, published);
    AlertedSnoc(s.alerts, Inserted(Outage(region, m), now), |before.alerts|, region, m);
  }

  class MeterStore {
    var seen: LastSeen

    constructor ()
      ensures seen == map[]
    {
      seen := map[];
    }

    /** updateMeterLastSeen */
    method UpdateMeterLastSeen(meter: string, region: string, timestamp: int, now: int)
      modifies this
      ensures seen == old(seen)[meter := Seen(region, timestamp, now + 3600000)]
    {
      seen := seen[meter := Seen(region, timestamp, now + LAST_SEEN_TTL)];
    }

    /** getInactiveMeters: each inactive meter once, in some order. */
    method GetInactiveMeters(now: int, threshold: int) returns (inactive: seq<string>)
      ensures forall m :: m in inactive <==> Inactive(seen, m, now, threshold)
      ensures forall m :: m in inactive <==> m in seen && now < seen[m].expiry && seen[m].at + threshold < now
      ensures forall i, j :: 0 <= i < j < |inactive| ==> inactive[i] != inactive[j]
    {
      inactive := [];
      var keys := seen.Keys;
      while keys != {}
        invariant keys <= seen.Keys
        invariant forall m :: m in inactive <==> m !in keys && Inactive(seen, m, now, threshold)
        invariant forall i, j :: 0 <= i < j < |inactive| ==> inactive[i] != inactive[j]
        decreases |keys|
      {
        var m :| m in keys;
        keys := keys - {m};
        if now < seen[m].expiry && seen[m].at < now - threshold {
          inactive := inactive + [m];
        }
      }
    }
  }

  /** The outage of the meter is answered: an active marker, and a new alert just when there was none before. */
  ghost predicate Answered(before: State, after: State, region: string, meter: string, now: int) {
    && Live(after.active, ActiveKey(Outage(region, meter)), now)
    && (AlertedSince(after.alerts, |before.alerts|, region, meter) <==>
        !Live(before.active, ActiveKey(Outage(region, meter)), now))
  }

  /** Some outaged meter makes raising fail. */
  ghost predicate SomeFails(s: State, seen: LastSeen, region: string, active: seq<string>,
                            now: int, threshold: int, publishFails: set<string>)
  {
    exists m :: Outaged(seen, m, region, active, now, threshold) && Fails(s, Outage(region, m), now, m in publishFails)
  }

  /** The markers of a meter are as they were. */
  predicate Untouched(before: State, after: State, region: string, meter: string, now: int) {
    && (Live(after.active, ActiveKey(Outage(region, meter)), now) <==>
        Live(before.active, ActiveKey(Outage(region, meter)), now))
    && (Live(after.dedup, DedupKey(Outage(region, meter)), now) <==>
        Live(before.dedup, DedupKey(Outage(region, meter)), now))
  }

  /** The alert is about one of these meters of the region. */
  predicate AboutOne(x: Inserted, region: string, meters: seq<string>) {
    x.about.meterId in meters && x.about == Outage(region, x.about.meterId)
  }

  /**
   * checkMeterOutages. It fails just when some outaged meter makes raising fail. Otherwise every outaged meter of the
   * region is answered; and in any case no other subject gets an alert.
   */
  method CheckMeterOutages(store: MeterStore, manager: AlertManager, region: string, active: seq<string>,
                           now: int, threshold: int, publishFails: set<string>)
    returns (failed: bool, ghost outaged: seq<string>)
    modifies manager
    ensures forall m :: m in outaged <==> Outaged(store.seen, m, region, active, now, threshold)
    ensures forall m :: m in outaged <==>
      && m in store.seen && now < store.seen[m].expiry && store.seen[m].at + threshold < now
      && store.seen[m].region == region && m !in active
    ensures failed <==> exists m ::
      && m in outaged && !Live(old(manager.active), ActiveKey(Subject("METER_OUTAGE", region, m)), now)
      && (m in publishFails || Live(old(manager.dedup), DedupKey(Subject("METER_OUTAGE", region, m)), now))
    ensures failed <==> SomeFails(old(manager.Abstract()), store.seen, region, active, now, threshold, publishFails)
    ensures !failed ==> forall m :: m in outaged ==>
      Answered(old(manager.Abstract()), manager.Abstract(), region, m, now)
    ensures old(manager.alerts) <= manager.alerts
    ensures forall i :: |old(manager.alerts)| <= i < |manager.alerts| ==> AboutOne(manager.alerts[i], region, outaged)
  {
    var inactive := store.GetInactiveMeters(now, threshold);
    var meters := [];
    for k := 0 to |inactive|
      invariant forall m :: m in meters <==>
        m in inactive[..k] && Outaged(store.seen, m, region, active, now, threshold)
      invariant forall i, j :: 0 <= i < j < |meters| ==> meters[i] != meters[j]
    {
      assert inactive[k] in inactive && inactive[k] !in inactive[..k];
      if store.seen[inactive[k]].region == region && inactive[k] !in active {
        meters := meters + [inactive[k]];
      }
    }
    assert inactive[..|inactive|] == inactive;
    outaged := meters;
    failed := RaiseAll(manager, region, meters, now, publishFails);
  }

  /** The loop of checkMeterOutages over the outaged meters. */
  method RaiseAll(manager: AlertManager, region: string, meters: seq<string>, now: int, publishFails: set<string>)
    returns (failed: bool)
    requires forall i, j :: 0 <= i < j < |meters| ==> meters[i] != meters[j]
    modifies manager
    ensures failed <==>
      exists m :: m in meters && Fails(old(manager.Abstract()), Outage(region, m), now, m in publishFails)
    ensures !failed ==> forall m :: m in meters ==>
      Answered(old(manager.Abstract()), manager.Abstract(), region, m, now)
    ensures old(manager.alerts) <= manager.alerts
    ensures forall i :: |old(manager.alerts)| <= i < |manager.alerts| ==> AboutOne(manager.alerts[i], region, meters)
  {
    hide DedupKey, ActiveKey, Next, Live, Answered;
    ghost var before := manager.Abstract();
    for k := 0 to |meters|
      invariant before.alerts <= manager.alerts
      invariant forall i :: |before.alerts| <= i < |manager.alerts| ==> AboutOne(manager.alerts[i], region, meters[..k])
      invariant forall j :: k <= j < |meters| ==> Untouched(before, manager.Abstract(), region, meters[j], now)
      invariant forall j :: 0 <= j < k ==> Answered(before, manager.Abstract(), region, meters[j], now)
      invariant forall j :: 0 <= j < k ==> !Fails(before, Outage(region, meters[j]), now, meters[j] in publishFails)
    {
      var m := meters[k];
      ghost var was, ttl := manager.Abstract(), manager.deduplicationTtl;
      var published := m !in publishFails;
      assert Untouched(before, was, region, m, now);
      RaiseEffect(was, ttl, Outage(region, m), now, published);
      forall j | k < j < |meters|
        ensures Untouched(before, Next(was, ttl, Raise(Outage(region, m), AtOnce(now), published)), region, meters[j],
                          now)
      {
        assert Untouched(before, was, region, meters[j], now);
        OthersUntouched(was, ttl, region, m, meters[j], now, published);
      }
      forall j | 0 <= j < k
        ensures Answered(before, Next(was, ttl, Raise(Outage(region, m), AtOnce(now), published)), region, meters[j],
                         now)
      {
        AnswersKept(before, was, ttl, region, m, meters[j], now, published);
      }
      assert !AlertedSince(was.alerts, |before.alerts|, region, m);
      var stop := manager.RaiseUnlessActive(Outage(region, m), AtOnce(now), published);
      assert m in meters[..k + 1] && forall x :: x in meters[..k] ==> x in meters[..k + 1];
      if stop {
        return true;
      }
      AnswerGiven(before, was, ttl, region, m, now, published);
    }
    return false;
  }
}

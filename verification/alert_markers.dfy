// Alert creation: the deduplication marker checked and set by AlertManagerService.createAlert, the
// active marker checked and set by AggregateHelper, and the alerts inserted between them.

module AlertMarkers {
  import opened Text

  const ACTIVE_MS := 300000

  /** What an alert is about; region and meterId are "" when absent. */
  datatype Subject = Subject(kind: string, region: string, meterId: string)

  function RegionOrGlobal(a: Subject): string {
    if a.region == "" then "global" else a.region
  }

  /** Alerts that the deduplication is meant to treat as the same. */
  predicate SameSubject(a: Subject, b: Subject) {
    a.kind == b.kind && RegionOrGlobal(a) == RegionOrGlobal(b) && a.meterId == b.meterId
  }

  function DedupKey(a: Subject): string {
    "dedup:" + a.kind + ":" + RegionOrGlobal(a) + if a.meterId == "" then "" else ":" + a.meterId
  }

  function ActiveKey(a: Subject): string {
    "alerts:active:" + a.region + ":" + a.kind + if a.meterId == "" then "" else ":" + a.meterId
  }

  /** The keys as Redis holds them. */
  lemma KeyTexts(kind: string, region: string, meterId: string)
    ensures DedupKey(Subject(kind, "", "")) == "dedup:" + kind + ":global"
    ensures meterId != "" ==> DedupKey(Subject(kind, "", meterId)) == "dedup:" + kind + ":global:" + meterId
    ensures region != "" ==> DedupKey(Subject(kind, region, "")) == "dedup:" + kind + ":" + region
    ensures region != "" && meterId != "" ==>
      DedupKey(Subject(kind, region, meterId)) == "dedup:" + kind + ":" + region + ":" + meterId
    ensures ActiveKey(Subject(kind, region, "")) == "alerts:active:" + region + ":" + kind
    ensures meterId != "" ==>
      ActiveKey(Subject(kind, region, meterId)) == "alerts:active:" + region + ":" + kind + ":" + meterId
  {
    assert ":global:" + meterId == ":" + ("global" + ":" + meterId);
  }

  // ---------------------------------------------------------------- keys name subjects

  predicate Plain(a: Subject) {
    ':' !in a.kind && ':' !in a.region && ':' !in a.meterId
  }

  function KeyParts(a: Subject): seq<string> {
    ["dedup", a.kind, RegionOrGlobal(a)] + if a.meterId == "" then [] else [a.meterId]
  }

  lemma KeySplits(a: Subject)
    requires Plain(a)
    ensures Split(DedupKey(a), ':') == KeyParts(a)
  {
    var parts := KeyParts(a);
    assert DedupKey(a) == Join(parts, [':']) by {
      var tail := parts[2..];
      assert parts[1..] == [a.kind] + tail && tail[0] == RegionOrGlobal(a);
      assert "dedup:" == "dedup" + ":";
      if a.meterId == "" {
        assert Join(tail, ":") == RegionOrGlobal(a);
      } else {
        assert tail[1..] == [a.meterId];
        assert Join(tail, ":") == RegionOrGlobal(a) + ":" + a.meterId;
      }
      assert parts[1..][1..] == tail;
    }
    SplitJoin(parts, ':');
  }

  /** Deduplication keys of colon-free parts coincide only for the same kind, region or global, and meter. */
  lemma DedupKeyInjective(a: Subject, b: Subject)
    requires Plain(a) && Plain(b)
    ensures DedupKey(a) == DedupKey(b) <==> SameSubject(a, b)
  {
    hide DedupKey;
    KeySplits(a);
    KeySplits(b);
    var p, q := KeyParts(a), KeyParts(b);
    if p == q {
      assert p[1] == q[1] && p[2] == q[2];
      if a.meterId != "" {
        assert p[3] == q[3];
      }
    }
    assert DedupKey(a) == DedupKey(b) ==> p == q;
    if SameSubject(a, b) {
      SameParts(a, b);
    }
  }

  lemma SameParts(a: Subject, b: Subject)
    requires SameSubject(a, b)
    ensures DedupKey(a) == DedupKey(b)
  {
  }

  // ---------------------------------------------------------------- the markers as a state machine

  /** key -> expiry instant */
  type Markers = map<string, int>

  predicate Live(m: Markers, key: string, now: int) {
    key in m && now < m[key]
  }

  datatype Inserted = Inserted(about: Subject, at: int)

  datatype State = State(dedup: Markers, active: Markers, alerts: seq<Inserted>, clock: int)

  const INITIAL := State(map[], map[], [], 0)

  /** The instants at which the parts of one call take effect: the active check, the duplicate check,
      the insert, the deduplication marker, the active marker. */
  datatype Times = Times(activeCheck: int, dedupCheck: int, insert: int, mark: int, activate: int)

  datatype Step =
    /** createAlert called directly, as for anomalies */
    | Create(about: Subject, t: Times, published: bool)
    /** AggregateHelper: create unless an active marker exists, then set it */
    | Raise(about: Subject, t: Times, published: bool)
    /** acknowledging or resolving an alert clears its active marker */
    | ClearActive(about: Subject, now: int)

  predicate Timely(s: State, step: Step) {
    match step
    case ClearActive(_, now) => s.clock <= now
    case _ => s.clock <= step.t.activeCheck <= step.t.dedupCheck <= step.t.insert <= step.t.mark <= step.t.activate
  }

  /** createAlert: a live marker suppresses; a failing publish leaves the row but sets no marker. */
  function AfterCreate(s: State, ttl: nat, a: Subject, t: Times, published: bool): State {
    if Live(s.dedup, DedupKey(a), t.dedupCheck) then s.(clock := t.activate)
    else s.(alerts := s.alerts + [Inserted(a, t.insert)], clock := t.activate,
            dedup := if published then s.dedup[DedupKey(a) := t.mark + ttl] else s.dedup)
  }

  function Next(s: State, ttl: nat, step: Step): State {
    match step
    case Create(a, t, published) => AfterCreate(s, ttl, a, t, published)
    case Raise(a, t, published) =>
      if Live(s.active, ActiveKey(a), t.activeCheck) then s.(clock := t.activate)
      else
        var s' := AfterCreate(s, ttl, a, t, published);
        if Live(s.dedup, DedupKey(a), t.dedupCheck) || !published then s'
        else s'.(active := s'.active[ActiveKey(a) := t.activate + ACTIVE_MS])
    case ClearActive(a, now) => s.(active := s.active - {ActiveKey(a)}, clock := now)
  }

  function Run(s: State, ttl: nat, steps: seq<Step>): State
    decreases |steps|
  {
    if steps == [] then s else Run(Next(s, ttl, steps[0]), ttl, steps[1..])
  }

  ghost predicate TimelyRun(s: State, ttl: nat, steps: seq<Step>)
    decreases |steps|
  {
    steps != [] ==> Timely(s, steps[0]) && TimelyRun(Next(s, ttl, steps[0]), ttl, steps[1..])
  }

  // ---------------------------------------------------------------- spacing

  ghost predicate Spaced(s: State, ttl: nat) {
    forall i, j :: 0 <= i < j < |s.alerts| && SameSubject(s.alerts[i].about, s.alerts[j].about) ==>
      s.alerts[i].at + ttl <= s.alerts[j].at
  }

  /** Every alert is still guarded by a marker for its own key. */
  ghost predicate Guarded(s: State, ttl: nat) {
    forall i :: 0 <= i < |s.alerts| ==>
      DedupKey(s.alerts[i].about) in s.dedup && s.alerts[i].at + ttl <= s.dedup[DedupKey(s.alerts[i].about)]
  }

  /** The step inserts an alert: neither check finds a live marker. */
  predicate Inserts(s: State, step: Step) {
    && !step.ClearActive? && !Live(s.dedup, DedupKey(step.about), step.t.dedupCheck)
    && (step.Raise? ==> !Live(s.active, ActiveKey(step.about), step.t.activeCheck))
  }

  /** The step inserts an alert and then fails to publish it. */
  predicate LosesGuard(s: State, step: Step) {
    Inserts(s, step) && !step.published
  }

  lemma CreateExact(s: State, ttl: nat, a: Subject, t: Times, published: bool)
    requires Guarded(s, ttl) && t.dedupCheck <= t.insert <= t.mark && ttl > 0
    ensures var s' := AfterCreate(s, ttl, a, t, published);
      && (Guarded(s', ttl) <==> Live(s.dedup, DedupKey(a), t.dedupCheck) || published)
      && (Spaced(s, ttl) ==> Spaced(s', ttl))
  {
    hide DedupKey;
    var s' := AfterCreate(s, ttl, a, t, published);
    forall i | 0 <= i < |s.alerts| && SameSubject(s.alerts[i].about, a)
      ensures DedupKey(s.alerts[i].about) == DedupKey(a)
    {
      SameParts(s.alerts[i].about, a);
    }
    if !Live(s.dedup, DedupKey(a), t.dedupCheck) {
      assert s'.alerts[|s.alerts|] == Inserted(a, t.insert);
      assert forall i :: 0 <= i < |s.alerts| ==> s'.alerts[i] == s.alerts[i];
    }
  }

  /** A step leaves every alert guarded if and only if it does not insert one that it then fails to publish.
      (With a ttl of 0 the service cannot be created.) */
  lemma StepExact(s: State, ttl: nat, step: Step)
    requires Guarded(s, ttl) && Timely(s, step) && ttl > 0
    ensures Guarded(Next(s, ttl, step), ttl) <==> !LosesGuard(s, step)
    ensures Spaced(s, ttl) ==> Spaced(Next(s, ttl, step), ttl)
  {
    hide DedupKey, ActiveKey;
    if !step.ClearActive? {
      CreateExact(s, ttl, step.about, step.t, step.published);
    }
  }

  ghost predicate GuardedThroughout(s: State, ttl: nat, steps: seq<Step>)
    decreases |steps|
  {
    Guarded(s, ttl) && (steps != [] ==> GuardedThroughout(Next(s, ttl, steps[0]), ttl, steps[1..]))
  }

  ghost predicate NeverLost(s: State, ttl: nat, steps: seq<Step>)
    decreases |steps|
  {
    steps != [] ==> !LosesGuard(s, steps[0]) && NeverLost(Next(s, ttl, steps[0]), ttl, steps[1..])
  }

  /** Every alert stays guarded throughout a run if and only if every alert inserted is published. */
  lemma {:induction false} RunExact(s: State, ttl: nat, steps: seq<Step>)
    requires Guarded(s, ttl) && TimelyRun(s, ttl, steps) && ttl > 0
    ensures GuardedThroughout(s, ttl, steps) <==> NeverLost(s, ttl, steps)
    ensures GuardedThroughout(s, ttl, steps) && Spaced(s, ttl) ==> Spaced(Run(s, ttl, steps), ttl)
    decreases |steps|
  {
    hide Spaced, Guarded, Next, Timely, LosesGuard;
    if steps != [] {
      var s' := Next(s, ttl, steps[0]);
      StepExact(s, ttl, steps[0]);
      if Guarded(s', ttl) {
        RunExact(s', ttl, steps[1..]);
      } else {
        assert !GuardedThroughout(s', ttl, steps[1..]);
      }
    }
  }

  /** Two alerts about the same kind, region or global, and meter are at least the deduplication ttl apart, in every run
      of direct creations, raised alerts and cleared markers in which every alert inserted is published. */
  lemma AlertSpacing(ttl: nat, steps: seq<Step>, i: nat, j: nat)
    requires ttl > 0 && TimelyRun(INITIAL, ttl, steps) && NeverLost(INITIAL, ttl, steps)
    requires i < j < |Run(INITIAL, ttl, steps).alerts|
    requires SameSubject(Run(INITIAL, ttl, steps).alerts[i].about, Run(INITIAL, ttl, steps).alerts[j].about)
    ensures Run(INITIAL, ttl, steps).alerts[i].at + ttl <= Run(INITIAL, ttl, steps).alerts[j].at
  {
    RunExact(INITIAL, ttl, steps);
  }

  /**
   * Wherever the guard is lost, the next creation inserts the alert again at once, closer to the first than the ttl.
   */
  lemma FailedPublishRepeats(s: State, ttl: nat, step: Step)
    requires Timely(s, step) && LosesGuard(s, step) && step.t.activate < step.t.insert + ttl
    ensures var now := step.t.activate;
      var s', again := Next(s, ttl, step), Create(step.about, Times(now, now, now, now, now), true);
      Timely(s', again) && Inserts(s', again) && !Spaced(Next(s', ttl, again), ttl)
  {
    hide DedupKey, ActiveKey;
    var now, n := step.t.activate, |s.alerts|;
    var s' := Next(s, ttl, step);
    var s'' := Next(s', ttl, Create(step.about, Times(now, now, now, now, now), true));
    assert s''.alerts == s.alerts + [Inserted(step.about, step.t.insert)] + [Inserted(step.about, now)];
    assert s''.alerts[n] == Inserted(step.about, step.t.insert) && s''.alerts[n + 1] == Inserted(step.about, now);
    assert SameSubject(s''.alerts[n].about, s''.alerts[n + 1].about);
  }

  // ---------------------------------------------------------------- suppression

  /** A raised alert that finds no active marker but is rejected as a duplicate: the error then stops
      the processing of the whole aggregate. */
  predicate Suppressed(s: State, step: Step) {
    step.Raise? && !Live(s.active, ActiveKey(step.about), step.t.activeCheck) &&
    Live(s.dedup, DedupKey(step.about), step.t.dedupCheck)
  }

  /** The kinds AggregateHelper raises are never created directly, parts have no colon, and raised
      alerts name a region. */
  ghost predicate Regular(step: Step, raisedKinds: set<string>) {
    && Plain(step.about)
    && (step.Raise? ==> Raised(step.about, raisedKinds))
    && (step.Create? ==> step.about.kind !in raisedKinds)
  }

  ghost predicate Raised(a: Subject, raisedKinds: set<string>) {
    Plain(a) && a.region != "" && a.kind in raisedKinds
  }

  /** The active marker of a outlives its deduplication marker, or is gone since it was cleared. */
  predicate Paired(s: State, a: Subject, cleared: bool) {
    DedupKey(a) in s.dedup ==>
      if cleared then ActiveKey(a) !in s.active
      else ActiveKey(a) in s.active && s.dedup[DedupKey(a)] <= s.active[ActiveKey(a)]
  }

  /** For raised kinds the active marker outlives the deduplication marker. */
  ghost predicate Outlived(s: State, raisedKinds: set<string>) {
    forall a :: Raised(a, raisedKinds) ==> Paired(s, a, false)
  }

  /** The step sets the deduplication marker of a. */
  predicate SetsMarker(s: State, step: Step, a: Subject) {
    Inserts(s, step) && step.published && DedupKey(step.about) == DedupKey(a)
  }

  lemma ActiveKeySplits(a: Subject)
    requires Plain(a)
    ensures Split(ActiveKey(a), ':') ==
      ["alerts", "active", a.region, a.kind] + if a.meterId == "" then [] else [a.meterId]
  {
    hide Join, Split;
    var meter := if a.meterId == "" then [] else [a.meterId];
    var tail := [a.kind] + meter;
    JoinOne(a.meterId);
    JoinOne(a.kind);
    if a.meterId != "" {
      JoinNext(a.kind, meter);
    } else {
      assert tail == [a.kind];
    }
    JoinNext(a.region, tail);
    JoinNext("active", [a.region] + tail);
    var parts := ["alerts"] + (["active"] + ([a.region] + tail));
    JoinNext("alerts", parts[1..]);
    assert "alerts:active:" == "alerts" + ":" + ("active" + ":");
    assert ActiveKey(a) == Join(parts, [':']);
    assert parts == ["alerts", "active", a.region, a.kind] + meter;
    SplitJoin(parts, ':');
  }

  lemma JoinOne(word: string)
    ensures Join([word], ":") == word
  {
  }

  lemma JoinNext(word: string, words: seq<string>)
    requires words != []
    ensures Join([word] + words, ":") == word + ":" + Join(words, ":")
  {
    assert ([word] + words)[1..] == words;
  }

  /** Active keys of colon-free parts coincide only for the same subject. */
  lemma ActiveKeyInjective(a: Subject, b: Subject)
    requires Plain(a) && Plain(b)
    ensures ActiveKey(a) == ActiveKey(b) <==> a == b
  {
    hide ActiveKey;
    ActiveKeySplits(a);
    ActiveKeySplits(b);
    if ActiveKey(a) == ActiveKey(b) {
      var p, q := Split(ActiveKey(a), ':'), Split(ActiveKey(b), ':');
      assert p[2] == q[2] && p[3] == q[3];
      assert |p| == |q| && (|p| == 5 ==> p[4] == q[4]);
    }
  }

  lemma StepPairs(s: State, ttl: nat, step: Step, raisedKinds: set<string>, a: Subject, cleared: bool)
    requires Paired(s, a, cleared) && Raised(a, raisedKinds)
    requires Timely(s, step) && Regular(step, raisedKinds) && ttl <= ACTIVE_MS
    ensures var again := step.ClearActive? && step.about == a;
      Paired(Next(s, ttl, step), a, again || (cleared && !SetsMarker(s, step, a)))
  {
    DedupKeyInjective(a, step.about);
    ActiveKeyInjective(a, step.about);
    hide DedupKey, ActiveKey;
  }

  /** The active marker of a was cleared during the first i steps, and no later one of them set its deduplication
      marker. */
  ghost predicate ClearedSince(s: State, ttl: nat, steps: seq<Step>, i: nat, a: Subject)
    requires i <= |steps|
  {
    exists c :: 0 <= c < i && ClearsLast(s, ttl, steps, i, a, c)
  }

  ghost predicate ClearsLast(s: State, ttl: nat, steps: seq<Step>, i: nat, a: Subject, c: nat)
    requires c < i <= |steps|
  {
    steps[c].ClearActive? && steps[c].about == a && forall j :: c < j < i ==> !SetsAt(s, ttl, steps, j, a)
  }

  ghost predicate SetsAt(s: State, ttl: nat, steps: seq<Step>, j: nat, a: Subject)
    requires j < |steps|
  {
    SetsMarker(Run(s, ttl, steps[..j]), steps[j], a)
  }

  lemma ClearedSnoc(s: State, ttl: nat, steps: seq<Step>, i: nat, a: Subject)
    requires i < |steps|
    ensures ClearedSince(s, ttl, steps, i + 1, a) <==>
      (steps[i].ClearActive? && steps[i].about == a) ||
      (ClearedSince(s, ttl, steps, i, a) && !SetsAt(s, ttl, steps, i, a))
  {
    hide SetsAt;
    if steps[i].ClearActive? && steps[i].about == a {
      assert ClearsLast(s, ttl, steps, i + 1, a, i);
    } else if ClearedSince(s, ttl, steps, i, a) && !SetsAt(s, ttl, steps, i, a) {
      var c :| 0 <= c < i && ClearsLast(s, ttl, steps, i, a, c);
      assert ClearsLast(s, ttl, steps, i + 1, a, c);
    }
    if ClearedSince(s, ttl, steps, i + 1, a) {
      var c :| 0 <= c < i + 1 && ClearsLast(s, ttl, steps, i + 1, a, c);
      assert c < i ==> ClearsLast(s, ttl, steps, i, a, c);
    }
  }

  lemma {:induction false} RunSnoc(s: State, ttl: nat, steps: seq<Step>, i: nat)
    requires i < |steps| && TimelyRun(s, ttl, steps)
    ensures Run(s, ttl, steps[..i + 1]) == Next(Run(s, ttl, steps[..i]), ttl, steps[i])
    ensures Timely(Run(s, ttl, steps[..i]), steps[i])
    decreases i
  {
    hide Next, Timely;
    assert steps[..i + 1][1..] == steps[1..][..i];
    if i == 0 {
      assert steps[..0] == [] && steps[1..][..0] == [];
    } else {
      RunSnoc(Next(s, ttl, steps[0]), ttl, steps[1..], i - 1);
      assert steps[..i][1..] == steps[1..][..i - 1];
    }
  }

  lemma {:induction false} RunPairs(s: State, ttl: nat, steps: seq<Step>, raisedKinds: set<string>, i: nat, a: Subject)
    requires ttl <= ACTIVE_MS && Outlived(s, raisedKinds) && TimelyRun(s, ttl, steps) && Raised(a, raisedKinds)
    requires forall k :: 0 <= k < |steps| ==> Regular(steps[k], raisedKinds)
    requires i <= |steps|
    ensures Paired(Run(s, ttl, steps[..i]), a, ClearedSince(s, ttl, steps, i, a))
    decreases i
  {
    hide Next, Timely, SetsMarker, Paired, Regular;
    if i == 0 {
      assert steps[..0] == [];
    } else {
      RunPairs(s, ttl, steps, raisedKinds, i - 1, a);
      RunSnoc(s, ttl, steps, i - 1);
      ClearedSnoc(s, ttl, steps, i - 1, a);
      hide ClearedSince;
      StepPairs(Run(s, ttl, steps[..i - 1]), ttl, steps[i - 1], raisedKinds, a, ClearedSince(s, ttl, steps, i - 1, a));
    }
  }

  /** With a deduplication ttl of at most the 300 s of the active marker, a raised alert is rejected as a duplicate if
      and only if its deduplication marker is live and its active marker was cleared, by an acknowledgement or a
      resolution, since that marker was set. */
  lemma SuppressedExact(s: State, ttl: nat, steps: seq<Step>, raisedKinds: set<string>, i: nat)
    requires ttl <= ACTIVE_MS && Outlived(s, raisedKinds) && TimelyRun(s, ttl, steps)
    requires forall k :: 0 <= k < |steps| ==> Regular(steps[k], raisedKinds)
    requires i < |steps| && steps[i].Raise?
    ensures var r, a := Run(s, ttl, steps[..i]), steps[i].about;
      Suppressed(r, steps[i]) <==>
        Live(r.dedup, DedupKey(a), steps[i].t.dedupCheck) && ClearedSince(s, ttl, steps, i, a)
  {
    RunPairs(s, ttl, steps, raisedKinds, i, steps[i].about);
    RunSnoc(s, ttl, steps, i);
    hide Outlived, TimelyRun, Run, ClearedSince, DedupKey, ActiveKey, Next;
  }

  /** So with no acknowledgement or resolution AggregateHelper's alerts are never rejected as duplicates. */
  lemma NeverSuppressed(s: State, ttl: nat, steps: seq<Step>, raisedKinds: set<string>, i: nat)
    requires ttl <= ACTIVE_MS && Outlived(s, raisedKinds) && TimelyRun(s, ttl, steps)
    requires forall k :: 0 <= k < |steps| ==> Regular(steps[k], raisedKinds) && !steps[k].ClearActive?
    requires i < |steps|
    ensures !Suppressed(Run(s, ttl, steps[..i]), steps[i])
  {
    hide Outlived, TimelyRun, Run, Regular;
    if steps[i].Raise? {
      SuppressedExact(s, ttl, steps, raisedKinds, i);
    }
  }

  lemma RaisedOnce(ttl: nat, a: Subject)
    ensures var at0 := Times(0, 0, 0, 0, 0);
      Next(INITIAL, ttl, Raise(a, at0, true)) ==
      State(map[DedupKey(a) := ttl], map[ActiveKey(a) := ACTIVE_MS], [Inserted(a, 0)], 0)
  {
    hide DedupKey, ActiveKey;
  }

  /** The bound on the ttl is needed: a longer deduplication marker rejects an alert raised again when
      the active marker has expired. */
  lemma LongTtlSuppresses(ttl: nat, a: Subject)
    requires ttl > ACTIVE_MS
    ensures var at0, later := Times(0, 0, 0, 0, 0), Times(ACTIVE_MS, ACTIVE_MS, ACTIVE_MS, ACTIVE_MS, ACTIVE_MS);
      Suppressed(Next(INITIAL, ttl, Raise(a, at0, true)), Raise(a, later, true))
  {
    RaisedOnce(ttl, a);
    hide DedupKey, ActiveKey, Next;
  }

  /** An acknowledgement right after the alert has this effect for any ttl. */
  lemma AcknowledgementSuppresses(ttl: nat, a: Subject)
    requires ttl > 0
    ensures var at0 := Times(0, 0, 0, 0, 0);
      Suppressed(Next(Next(INITIAL, ttl, Raise(a, at0, true)), ttl, ClearActive(a, 0)), Raise(a, at0, true))
  {
    RaisedOnce(ttl, a);
    hide DedupKey, ActiveKey;
  }

  // ---------------------------------------------------------------- the services

  class AlertManager {
    var dedup: Markers
    var active: Markers
    var alerts: seq<Inserted>
    var clock: int
    const deduplicationTtl: nat

    function Abstract(): State
      reads this
    {
      State(dedup, active, alerts, clock)
    }

    constructor (deduplicationTtl: nat)
      ensures Abstract() == INITIAL && this.deduplicationTtl == deduplicationTtl
    {
      this.deduplicationTtl := deduplicationTtl;
      dedup, active, alerts, clock := map[], map[], [], 0;
    }

    /** createAlert: false stands for either error, a duplicate or a failed publish. */
    method CreateAlert(a: Subject, t: Times, published: bool) returns (created: bool)
      modifies this
      ensures Abstract() == Next(old(Abstract()), deduplicationTtl, Create(a, t, published))
      ensures created <==> published && !old(Live(dedup, DedupKey(a), t.dedupCheck))
      ensures active == old(active)
      ensures old(Live(dedup, DedupKey(a), t.dedupCheck)) ==> dedup == old(dedup) && alerts == old(alerts)
      ensures !old(Live(dedup, DedupKey(a), t.dedupCheck)) ==>
        && alerts == old(alerts) + [Inserted(a, t.insert)]
        && dedup == if published then old(dedup)[DedupKey(a) := t.mark + deduplicationTtl] else old(dedup)
    {
      hide DedupKey;
      clock := t.activate;
      if DedupKey(a) in dedup && t.dedupCheck < dedup[DedupKey(a)] {
        return false;
      }
      alerts := alerts + [Inserted(a, t.insert)];
      if !published {
        return false;
      }
      dedup := dedup[DedupKey(a) := t.mark + deduplicationTtl];
      return true;
    }

    /** The part of checkRegionalOverload and checkMeterOutages after the decision to alert. */
    method RaiseUnlessActive(a: Subject, t: Times, published: bool) returns (failed: bool)
      modifies this
      ensures Abstract() == Next(old(Abstract()), deduplicationTtl, Raise(a, t, published))
      ensures failed <==>
        !old(Live(active, ActiveKey(a), t.activeCheck)) && (!published || old(Live(dedup, DedupKey(a), t.dedupCheck)))
      ensures old(Live(active, ActiveKey(a), t.activeCheck)) ==> alerts == old(alerts) && dedup == old(dedup)
      ensures active ==
        if failed || old(Live(active, ActiveKey(a), t.activeCheck)) then old(active)
        else old(active)[ActiveKey(a) := t.activate + 300000]
    {
      hide DedupKey, ActiveKey;
      if ActiveKey(a) in active && t.activeCheck < active[ActiveKey(a)] {
        clock := t.activate;
        return false;
      }
      var created := CreateAlert(a, t, published);
      if created {
        active := active[ActiveKey(a) := t.activate + ACTIVE_MS];
      }
      return !created;
    }

    /** clearActiveAlert, after an acknowledgement or resolution */
    method ClearActiveAlert(a: Subject, now: int)
      modifies this
      ensures Abstract() == Next(old(Abstract()), deduplicationTtl, ClearActive(a, now))
      ensures active == old(active) - {ActiveKey(a)} && dedup == old(dedup) && alerts == old(alerts)
    {
      active := active - {ActiveKey(a)};
      clock := now;
    }
  }
}

// The life of an alert row: acknowledge, resolve, bulk resolve, auto resolve, and the status derived
// from the two booleans of the row.

module AlertLifecycle {
  import opened Text

  datatype Status = Active | Acknowledged | Resolved

  datatype Row = Row(isResolved: bool, acknowledged: bool, acknowledgedBy: Option<string>, acknowledgedAt: Option<int>,
                     resolvedAt: Option<int>, createdAt: int, metadata: map<string, string>)

  type Table = map<string, Row>

  /** mapRowToAlert's status */
  function StatusFrom(isResolved: bool, acknowledged: bool): Status {
    if isResolved then Resolved else if acknowledged then Acknowledged else Active
  }

  function StatusOf(r: Row): Status {
    StatusFrom(r.isResolved, r.acknowledged)
  }

  function Rank(s: Status): nat {
    match s
    case Active => 0
    case Acknowledged => 1
    case Resolved => 2
  }

  // ---------------------------------------------------------------- the operations on the table

  datatype Step =
    | Acknowledge(id: string, who: string, at: int, notes: map<string, string>)
    | Resolve(id: string, at: int, notes: map<string, string>)
    | BulkResolve(ids: seq<string>, at: int, notes: map<string, string>)
    | AutoResolve(maxAgeHours: nat, now: int)

  /** acknowledgeAlert: an unknown id is an error, an acknowledged alert stays as it is. */
  function AfterAcknowledge(t: Table, id: string, who: string, at: int, notes: map<string, string>): Table {
    if id !in t || t[id].acknowledged then t
    else t[id := t[id].(acknowledged := true, acknowledgedBy := Some(who), acknowledgedAt := Some(at),
                        metadata := t[id].metadata + notes)]
  }

  function ResolvedRow(r: Row, at: int, notes: map<string, string>): Row {
    r.(isResolved := true, resolvedAt := Some(at), metadata := r.metadata + notes)
  }

  predicate Open(t: Table, id: string) {
    id in t && !t[id].isResolved
  }

  /** The UPDATE ... WHERE alert_id = id AND is_resolved = false of one alert, and the guard of resolveAlert. */
  function AfterResolve(t: Table, id: string, at: int, notes: map<string, string>): Table {
    if Open(t, id) then t[id := ResolvedRow(t[id], at, notes)] else t
  }

  /** bulkResolveAlerts: the table and the ids it returns. */
  function AfterBulk(t: Table, ids: seq<string>, at: int, notes: map<string, string>): (r: (Table, seq<string>)) {
    if ids == [] then (t, [])
    else
      var (mid, done) := AfterBulk(t, ids[..|ids| - 1], at, notes);
      var id := ids[|ids| - 1];
      (AfterResolve(mid, id, at, notes), if Open(mid, id) then done + [id] else done)
  }

  predicate Stale(r: Row, maxAgeHours: nat, now: int) {
    !r.isResolved && r.createdAt < now - maxAgeHours * 3600000
  }

  function AfterAuto(t: Table, maxAgeHours: nat, now: int): Table {
    map id | id in t ::
      if Stale(t[id], maxAgeHours, now) then ResolvedRow(t[id], now, map["auto_resolved" := "true"]) else t[id]
  }

  function Next(t: Table, step: Step): Table {
    match step
    case Acknowledge(id, who, at, notes) => AfterAcknowledge(t, id, who, at, notes)
    case Resolve(id, at, notes) => AfterResolve(t, id, at, notes)
    case BulkResolve(ids, at, notes) => AfterBulk(t, ids, at, notes).0
    case AutoResolve(maxAgeHours, now) => AfterAuto(t, maxAgeHours, now)
  }

  function Run(t: Table, steps: seq<Step>): Table {
    if steps == [] then t else Next(Run(t, steps[..|steps| - 1]), steps[|steps| - 1])
  }

  // ---------------------------------------------------------------- progress

  /** The later row has not gone back: its status is no earlier, what was stamped stays stamped as it
      was, and no metadata key is lost. */
  predicate Onward(before: Row, after: Row) {
    && Rank(StatusOf(before)) <= Rank(StatusOf(after))
    && (before.acknowledged ==> after.acknowledged)
    && (before.acknowledged ==>
        (after.acknowledgedAt, after.acknowledgedBy) == (before.acknowledgedAt, before.acknowledgedBy))
    && (before.isResolved ==> after.isResolved && after.resolvedAt == before.resolvedAt)
    && before.metadata.Keys <= after.metadata.Keys && after.createdAt == before.createdAt
  }

  ghost predicate TableOnward(t: Table, u: Table) {
    t.Keys == u.Keys && forall id :: id in t ==> Onward(t[id], u[id])
  }

  /** A resolution instant is recorded exactly for resolved rows. */
  ghost predicate Stamped(t: Table) {
    forall id :: id in t ==> (t[id].isResolved <==> t[id].resolvedAt.Some?)
  }

  lemma ResolveOnward(t: Table, id: string, at: int, notes: map<string, string>)
    ensures TableOnward(t, AfterResolve(t, id, at, notes))
    ensures Stamped(t) ==> Stamped(AfterResolve(t, id, at, notes))
  {
  }

  lemma OnwardTwice(t: Table, u: Table, v: Table)
    requires TableOnward(t, u) && TableOnward(u, v)
    ensures TableOnward(t, v)
  {
    forall id | id in t ensures Onward(t[id], v[id]) {
      assert Onward(t[id], u[id]) && Onward(u[id], v[id]);
    }
  }

  lemma {:induction false} BulkOnward(t: Table, ids: seq<string>, at: int, notes: map<string, string>)
    ensures TableOnward(t, AfterBulk(t, ids, at, notes).0)
    ensures Stamped(t) ==> Stamped(AfterBulk(t, ids, at, notes).0)
  {
    if ids != [] {
      hide TableOnward, Stamped, AfterResolve, Open;
      var init, id := ids[..|ids| - 1], ids[|ids| - 1];
      BulkOnward(t, init, at, notes);
      var mid := AfterBulk(t, init, at, notes).0;
      ResolveOnward(mid, id, at, notes);
      OnwardTwice(t, mid, AfterResolve(mid, id, at, notes));
    } else {
      assert TableOnward(t, t);
    }
  }

  lemma StepOnward(t: Table, step: Step)
    ensures TableOnward(t, Next(t, step))
    ensures Stamped(t) ==> Stamped(Next(t, step))
  {
    match step
    case BulkResolve(ids, at, notes) => BulkOnward(t, ids, at, notes);
    case _ =>
  }

  /** Over every run of acknowledgements, resolutions, bulk and automatic resolutions, no alert's
      status goes back and no resolution or acknowledgement stamp changes once set. */
  lemma {:induction false} RunOnward(t: Table, steps: seq<Step>, n: nat)
    requires n <= |steps|
    ensures TableOnward(Run(t, steps[..n]), Run(t, steps))
    ensures Stamped(t) ==> Stamped(Run(t, steps))
    decreases |steps|
  {
    hide Next, Stamped;
    if steps == [] {
      assert steps[..n] == steps;
    } else {
      var init := steps[..|steps| - 1];
      StepOnward(Run(t, init), steps[|steps| - 1]);
      if n == |steps| {
        assert steps[..n] == steps;
        RunOnward(t, init, 0);
      } else {
        assert steps[..n] == init[..n];
        RunOnward(t, init, n);
      }
    }
  }

  // ---------------------------------------------------------------- bulk resolution

  /** The distinct open ids of the request, in the order in which they first occur. */
  ghost function FirstOpen(t: Table, ids: seq<string>): (r: seq<string>)
    ensures forall id :: id in r <==> id in ids && Open(t, id)
    ensures forall i, j :: 0 <= i < j < |r| ==> r[i] != r[j]
    ensures r == [] <==> forall id :: id in ids ==> !Open(t, id)
  {
    if ids == [] then []
    else
      var init, id := ids[..|ids| - 1], ids[|ids| - 1];
      var r := FirstOpen(t, init);
      assert ids == init + [id];
      if Open(t, id) && id !in init then r + [id] else r
  }

  /** bulkResolveAlerts returns exactly the distinct open ids of the request in first-occurrence order,
      resolves those rows, and leaves every other row as it was. */
  lemma {:induction false} BulkExact(t: Table, ids: seq<string>, at: int, notes: map<string, string>)
    ensures var (u, done) := AfterBulk(t, ids, at, notes);
      done == FirstOpen(t, ids) && u == ResolvedAll(t, ids, at, notes)
  {
    hide ResolvedAll, AfterResolve, Open;
    if ids == [] {
      NothingResolved(t, at, notes);
    } else {
      var init, id := ids[..|ids| - 1], ids[|ids| - 1];
      BulkExact(t, init, at, notes);
      OneMoreResolved(t, init, id, at, notes);
      assert ids == init + [id];
    }
  }

  lemma NothingResolved(t: Table, at: int, notes: map<string, string>)
    ensures ResolvedAll(t, [], at, notes) == t
  {
  }

  lemma OneMoreResolved(t: Table, ids: seq<string>, id: string, at: int, notes: map<string, string>)
    ensures ResolvedAll(t, ids + [id], at, notes) == AfterResolve(ResolvedAll(t, ids, at, notes), id, at, notes)
    ensures Open(ResolvedAll(t, ids, at, notes), id) <==> Open(t, id) && id !in ids
  {
    hide ResolvedRow;
    OpenAfter(t, ids, at, notes, id);
    if Open(t, id) && id !in ids {
      assert ResolvedAll(t, ids + [id], at, notes) ==
        ResolvedAll(t, ids, at, notes)[id := ResolvedRow(t[id], at, notes)];
    } else {
      assert ResolvedAll(t, ids + [id], at, notes) == ResolvedAll(t, ids, at, notes);
    }
  }

  /** The table with every open row of the request resolved and every other row as it was. */
  function ResolvedAll(t: Table, ids: seq<string>, at: int, notes: map<string, string>): Table {
    map id | id in t :: if id in ids && Open(t, id) then ResolvedRow(t[id], at, notes) else t[id]
  }

  lemma OpenAfter(t: Table, ids: seq<string>, at: int, notes: map<string, string>, id: string)
    ensures Open(ResolvedAll(t, ids, at, notes), id) <==> Open(t, id) && id !in ids
  {
  }

  /** Repeating a bulk resolution finds nothing left to resolve and changes nothing. */
  lemma BulkTwice(t: Table, ids: seq<string>, at: int, notes: map<string, string>,
                  later: int, notes2: map<string, string>)
    ensures var u := AfterBulk(t, ids, at, notes).0; AfterBulk(u, ids, later, notes2) == (u, [])
  {
    hide AfterBulk;
    BulkExact(t, ids, at, notes);
    var u := AfterBulk(t, ids, at, notes).0;
    BulkExact(u, ids, later, notes2);
    var (v, again) := AfterBulk(u, ids, later, notes2);
    forall id | id in ids ensures !Open(u, id) {
      OpenAfter(t, ids, at, notes, id);
    }
    assert v == u;
  }

  // ---------------------------------------------------------------- row by row

  /** u is r with the notes merged into its metadata, a note of a key there already replacing it. */
  ghost predicate Noted(r: Row, u: Row, notes: map<string, string>) {
    && u.createdAt == r.createdAt && u.metadata.Keys == r.metadata.Keys + notes.Keys
    && (forall k :: k in notes ==> u.metadata[k] == notes[k])
    && (forall k :: k in r.metadata && k !in notes ==> u.metadata[k] == r.metadata[k])
  }

  ghost predicate AcknowledgedAs(r: Row, u: Row, who: string, at: int, notes: map<string, string>) {
    && Noted(r, u, notes) && u.acknowledged && u.acknowledgedBy == Some(who) && u.acknowledgedAt == Some(at)
    && u.isResolved == r.isResolved && u.resolvedAt == r.resolvedAt
  }

  ghost predicate ResolvedAs(r: Row, u: Row, at: int, notes: map<string, string>) {
    && Noted(r, u, notes) && u.isResolved && u.resolvedAt == Some(at) && u.acknowledged == r.acknowledged
    && u.acknowledgedBy == r.acknowledgedBy && u.acknowledgedAt == r.acknowledgedAt
  }

  /** What each operation makes of the row of each id: an acknowledgement takes a row not acknowledged yet, resolved or
      not; a resolution takes an open row; the automatic one takes every open row older than the given hours. */
  lemma NextMeans(t: Table, step: Step, id: string)
    requires id in t
    ensures id in Next(t, step)
    ensures var r, u := t[id], Next(t, step)[id];
      match step
      case Acknowledge(which, who, at, notes) =>
        if id == which && !r.acknowledged then AcknowledgedAs(r, u, who, at, notes) else u == r
      case Resolve(which, at, notes) =>
        if id == which && !r.isResolved then ResolvedAs(r, u, at, notes) else u == r
      case BulkResolve(ids, at, notes) =>
        if id in ids && !r.isResolved then ResolvedAs(r, u, at, notes) else u == r
      case AutoResolve(maxAgeHours, now) =>
        if !r.isResolved && now - r.createdAt > maxAgeHours * 3600000
        then ResolvedAs(r, u, now, map["auto_resolved" := "true"]) else u == r
  {
    match step
    case BulkResolve(ids, at, notes) => BulkExact(t, ids, at, notes);
    case _ =>
  }

  // ---------------------------------------------------------------- the service

  class AlertTable {
    var rows: Table

    constructor ()
      ensures rows == map[]
    {
      rows := map[];
    }

    /** acknowledgeAlert: None for an unknown id, otherwise the alert's status afterwards. */
    method AcknowledgeAlert(id: string, who: string, at: int, notes: map<string, string>)
      returns (status: Option<Status>)
      modifies this
      ensures rows == Next(old(rows), Acknowledge(id, who, at, notes))
      ensures status == if id in old(rows) then Some(StatusOf(rows[id])) else None
      ensures id in rows ==> status == Some(if rows[id].isResolved then Resolved else Acknowledged)
    {
      if id !in rows {
        return None;
      }
      if !rows[id].acknowledged {
        rows := rows[id := rows[id].(acknowledged := true, acknowledgedBy := Some(who), acknowledgedAt := Some(at),
                                     metadata := rows[id].metadata + notes)];
      }
      return Some(StatusOf(rows[id]));
    }

    /** resolveAlert */
    method ResolveAlert(id: string, at: int, notes: map<string, string>) returns (status: Option<Status>)
      modifies this
      ensures rows == Next(old(rows), Resolve(id, at, notes))
      ensures status == if id in old(rows) then Some(Resolved) else None
    {
      if id !in rows {
        return None;
      }
      if StatusOf(rows[id]) != Resolved {
        rows := rows[id := ResolvedRow(rows[id], at, notes)];
      }
      return Some(Resolved);
    }

    method BulkResolveAlerts(ids: seq<string>, at: int, notes: map<string, string>) returns (resolved: seq<string>)
      modifies this
      ensures rows == Next(old(rows), BulkResolve(ids, at, notes))
      ensures resolved == FirstOpen(old(rows), ids)
    {
      resolved := [];
      assert ids[..0] == [];
      for i := 0 to |ids|
        invariant (rows, resolved) == AfterBulk(old(rows), ids[..i], at, notes)
      {
        var id := ids[i];
        assert ids[..i + 1][..i] == ids[..i];
        if id in rows && !rows[id].isResolved {
          rows := rows[id := ResolvedRow(rows[id], at, notes)];
          resolved := resolved + [id];
        }
      }
      assert ids[..|ids|] == ids;
      BulkExact(old(rows), ids, at, notes);
    }

    /** autoResolveOldAlerts: one UPDATE over all rows; returns how many it changed. */
    method AutoResolveOldAlerts(maxAgeHours: nat, now: int) returns (count: nat)
      modifies this
      ensures rows == Next(old(rows), AutoResolve(maxAgeHours, now))
      ensures count == |set id | id in rows && rows[id].isResolved && !old(rows)[id].isResolved|
    {
      ghost var before := rows;
      count := |set id | id in rows && Stale(rows[id], maxAgeHours, now)|;
      rows := AfterAuto(rows, maxAgeHours, now);
      assert (set id | id in before && Stale(before[id], maxAgeHours, now)) ==
        set id | id in rows && rows[id].isResolved && !before[id].isResolved;
    }
  }
}

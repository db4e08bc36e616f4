// updateAlert: the SET list built from optional fields, and the row it leaves behind.

module AlertUpdate {
  import opened Text
  import opened SqlText
  import opened SqlClauses
  import opened AlertQueries
  import AlertLifecycle

  /** The fields to update; metadata is its JSON text. */
  datatype UpdateData = UpdateData(status: Option<string>, acknowledged: Option<bool>, acknowledgedBy: Option<string>,
                                   acknowledgedAt: Option<int>, resolvedAt: Option<int>, metadata: Option<string>)

  // ---------------------------------------------------------------- the assignments

  /** Only "resolved" and "active" touch is_resolved. */
  function Resolution(status: Option<string>): Option<bool> {
    if status == Some("resolved") then Some(true) else if status == Some("active") then Some(false) else None
  }

  function TextValue(field: Option<string>): Option<Value> {
    if field.Some? then Some(Str(field.value)) else None
  }

  /** The assignments updateAlert pushes, in its order. */
  function Sets(d: UpdateData): seq<Clause> {
    Optional("is_resolved", "=", BoolValue(Resolution(d.status))) +
    Optional("acknowledged", "=", BoolValue(d.acknowledged)) +
    Optional("acknowledged_by", "=", TextValue(d.acknowledgedBy)) +
    Optional("acknowledged_at", "=", TimeValue(d.acknowledgedAt)) +
    Optional("resolved_at", "=", TimeValue(d.resolvedAt)) + Optional("metadata", "=", TextValue(d.metadata))
  }

  /** `updated_at = NOW()` */
  const TOUCH := Clause("updated_at", "=", Now)

  function SetColumn(a: Alert, c: Clause, now: int): Alert {
    var v := if c.value == Now then Time(now) else c.value;
    if c.op != "=" then a
    else if c.column == "is_resolved" && v.Bool? then a.(isResolved := v.b)
    else if c.column == "acknowledged" && v.Bool? then a.(acknowledged := v.b)
    else if c.column == "acknowledged_by" && v.Str? then a.(acknowledgedBy := Some(v.s))
    else if c.column == "acknowledged_at" && v.Time? then a.(acknowledgedAt := Some(v.t))
    else if c.column == "resolved_at" && v.Time? then a.(resolvedAt := Some(v.t))
    else if c.column == "metadata" && v.Str? then a.(metadata := v.s)
    else if c.column == "updated_at" && v.Time? then a.(updatedAt := v.t)
    else a
  }

  /** The row after the assignments, from left to right. */
  function Apply(cs: seq<Clause>, a: Alert, now: int): Alert {
    if cs == [] then a else Apply(cs[1..], SetColumn(a, cs[0], now), now)
  }

  function Or<T>(field: Option<T>, current: T): T {
    if field.Some? then field.value else current
  }

  function OrOption<T>(field: Option<T>, current: Option<T>): Option<T> {
    if field.Some? then field else current
  }

  /** The record update asked for: each given field replaced, the others kept, updated_at set. */
  function Updated(d: UpdateData, a: Alert, now: int): Alert {
    a.(isResolved := Or(Resolution(d.status), a.isResolved),
       acknowledged := Or(d.acknowledged, a.acknowledged),
       acknowledgedBy := OrOption(d.acknowledgedBy, a.acknowledgedBy),
       acknowledgedAt := OrOption(d.acknowledgedAt, a.acknowledgedAt),
       resolvedAt := OrOption(d.resolvedAt, a.resolvedAt),
       metadata := Or(d.metadata, a.metadata),
       updatedAt := now)
  }

  lemma {:induction false} ApplyAppend(x: seq<Clause>, y: seq<Clause>, a: Alert, now: int)
    ensures Apply(x + y, a, now) == Apply(y, Apply(x, a, now), now)
    decreases |x|
  {
    hide SetColumn;
    if x == [] {
      assert x + y == y;
    } else {
      assert (x + y)[1..] == x[1..] + y;
      ApplyAppend(x[1..], y, SetColumn(a, x[0], now), now);
    }
  }

  function SetOptional(a: Alert, column: string, value: Option<Value>, now: int): Alert {
    if value.Some? then SetColumn(a, Clause(column, "=", value.value), now) else a
  }

  lemma ApplyNext(x: seq<Clause>, column: string, value: Option<Value>, a: Alert, now: int)
    ensures Apply(x + Optional(column, "=", value), a, now) == SetOptional(Apply(x, a, now), column, value, now)
  {
    hide SetColumn;
    ApplyAppend(x, Optional(column, "=", value), a, now);
    if value.Some? {
      assert Optional(column, "=", value)[1..] == [];
    }
  }

  lemma SetFlags(d: UpdateData, a: Alert, now: int)
    ensures SetOptional(a, "is_resolved", BoolValue(Resolution(d.status)), now) ==
      a.(isResolved := Or(Resolution(d.status), a.isResolved))
    ensures SetOptional(a, "acknowledged", BoolValue(d.acknowledged), now) ==
      a.(acknowledged := Or(d.acknowledged, a.acknowledged))
    ensures SetOptional(a, "updated_at", Some(Now), now) == a.(updatedAt := now)
  {
  }

  lemma SetStamps(d: UpdateData, a: Alert, now: int)
    ensures SetOptional(a, "acknowledged_by", TextValue(d.acknowledgedBy), now) ==
      a.(acknowledgedBy := OrOption(d.acknowledgedBy, a.acknowledgedBy))
    ensures SetOptional(a, "acknowledged_at", TimeValue(d.acknowledgedAt), now) ==
      a.(acknowledgedAt := OrOption(d.acknowledgedAt, a.acknowledgedAt))
    ensures SetOptional(a, "resolved_at", TimeValue(d.resolvedAt), now) ==
      a.(resolvedAt := OrOption(d.resolvedAt, a.resolvedAt))
    ensures SetOptional(a, "metadata", TextValue(d.metadata), now) == a.(metadata := Or(d.metadata, a.metadata))
  {
  }

  /** The assignments, applied in order, leave the record update that was asked for. */
  lemma SetsMeanUpdate(d: UpdateData, a: Alert, now: int)
    ensures Apply(Sets(d) + [TOUCH], a, now) == Updated(d, a, now)
  {
    hide Apply, Optional, SetOptional, Or, OrOption, Resolution, BoolValue, TextValue, TimeValue;
    var x := Optional("is_resolved", "=", BoolValue(Resolution(d.status)));
    ApplyNothing(a, now);
    ApplyNext([], "is_resolved", BoolValue(Resolution(d.status)), a, now);
    assert [] + x == x;
    SetFlags(d, a, now);
    ApplyNext(x, "acknowledged", BoolValue(d.acknowledged), a, now);
    SetFlags(d, Apply(x, a, now), now);
    x := x + Optional("acknowledged", "=", BoolValue(d.acknowledged));
    ApplyNext(x, "acknowledged_by", TextValue(d.acknowledgedBy), a, now);
    SetStamps(d, Apply(x, a, now), now);
    x := x + Optional("acknowledged_by", "=", TextValue(d.acknowledgedBy));
    ApplyNext(x, "acknowledged_at", TimeValue(d.acknowledgedAt), a, now);
    SetStamps(d, Apply(x, a, now), now);
    x := x + Optional("acknowledged_at", "=", TimeValue(d.acknowledgedAt));
    ApplyNext(x, "resolved_at", TimeValue(d.resolvedAt), a, now);
    SetStamps(d, Apply(x, a, now), now);
    x := x + Optional("resolved_at", "=", TimeValue(d.resolvedAt));
    ApplyNext(x, "metadata", TextValue(d.metadata), a, now);
    SetStamps(d, Apply(x, a, now), now);
    x := x + Optional("metadata", "=", TextValue(d.metadata));
    ApplyNext(x, "updated_at", Some(Now), a, now);
    SetFlags(d, Apply(x, a, now), now);
  }

  lemma ApplyNothing(a: Alert, now: int)
    ensures Apply([], a, now) == a
    ensures Optional("updated_at", "=", Some(Now)) == [TOUCH]
  {
  }

  lemma SetWords()
    ensures Word("is_resolved") && Word("acknowledged") && Word("acknowledged_by") && Word("=")
    ensures Word("acknowledged_at") && Word("resolved_at") && Word("metadata") && Word("updated_at")
  {
  }

  lemma SetsWritten(d: UpdateData)
    ensures AllWritten(Sets(d) + [TOUCH])
  {
    hide Word;
    SetWords();
  }

  // ---------------------------------------------------------------- the statement

  datatype Update = Update(assigns: seq<Clause>, key: Value)

  function KeyText(keyIndex: nat): string {
    " " + Spaced(["WHERE", "alert_id", "="]) + Placeholder(keyIndex) + " RETURNING *"
  }

  /** The UPDATE text for a SET list; keyIndex numbers the alert id. */
  function UpdateQuery(cs: seq<Clause>, keyIndex: nat): string {
    Spaced(["UPDATE", "alerts", "SET"]) + ListText(cs, 1, ",") + KeyText(keyIndex)
  }

  function KeyTokens(keyIndex: nat): seq<string> {
    ["WHERE", "alert_id", "=", Placeholder(keyIndex), "RETURNING", "*"]
  }

  function ParseUpdate(text: string, values: seq<Value>): Option<Update> {
    var ts := Lex(text);
    if |ts| < 3 || ts[..3] != ["UPDATE", "alerts", "SET"] then None
    else
      var set_ := ParseList(ts[3..], values, ",");
      if set_.None? then None
      else
        var rest := set_.value.1;
        if |rest| != 6 || rest[..3] != ["WHERE", "alert_id", "="] || rest[4..] != ["RETURNING", "*"] then None
        else if Bound(rest[3], values).None? then None
        else Some(Update(set_.value.0, Bound(rest[3], values).value))
  }

  lemma LexKeyWords(rest: string)
    ensures Lex(Spaced(["WHERE", "alert_id", "="]) + rest) == ["WHERE", "alert_id", "="] + Lex(rest)
    ensures Lex(Spaced(["UPDATE", "alerts", "SET"]) + rest) == ["UPDATE", "alerts", "SET"] + Lex(rest)
  {
    hide Lex, Spaced;
    LexSpaced(["WHERE", "alert_id", "="], rest);
    LexSpaced(["UPDATE", "alerts", "SET"], rest);
  }

  lemma LexReturning()
    ensures Lex(" RETURNING *") == ["RETURNING", "*"]
  {
    hide Lex;
    assert " RETURNING *" == " " + ("RETURNING" + " " + ("*" + ""));
    LexBlank("RETURNING" + " " + ("*" + ""));
    LexSpacedWord("RETURNING", "*" + "");
    LexWord("*", "");
    LexNothing();
  }

  lemma LexKey(keyIndex: nat)
    ensures Lex(KeyText(keyIndex)) == KeyTokens(keyIndex) && AtBreak(KeyText(keyIndex))
  {
    hide Lex, Spaced, Placeholder, Word;
    var words, p := Spaced(["WHERE", "alert_id", "="]), Placeholder(keyIndex);
    assert KeyText(keyIndex) == " " + (words + (p + " RETURNING *"));
    LexBlank(words + (p + " RETURNING *"));
    LexKeyWords(p + " RETURNING *");
    PlaceholderWord(keyIndex);
    LexWord(p, " RETURNING *");
    LexReturning();
  }

  /** The statement reads as the assignments and the alert id. */
  lemma UpdateQueryMeans(cs: seq<Clause>, keyIndex: nat, values: seq<Value>)
    requires cs != [] && AllWritten(cs) && Supplies(values, 1, cs) && 1 <= keyIndex <= |values|
    ensures ParseUpdate(UpdateQuery(cs, keyIndex), values) == Some(Update(cs, values[keyIndex - 1]))
  {
    hide Lex, Spaced, Placeholder, Bound, AllWritten, Supplies, ListTokens, ListText, ParseList, KeyText;
    var key := KeyText(keyIndex);
    LexKey(keyIndex);
    assert UpdateQuery(cs, keyIndex) == Spaced(["UPDATE", "alerts", "SET"]) + (ListText(cs, 1, ",") + key);
    LexKeyWords(ListText(cs, 1, ",") + key);
    LexList(cs, 1, ",", key);
    var ts := Lex(UpdateQuery(cs, keyIndex));
    assert ts[..3] == ["UPDATE", "alerts", "SET"];
    assert ts[3..] == ListTokens(cs, 1, ",") + KeyTokens(keyIndex);
    ParseOfList(cs, 1, KeyTokens(keyIndex), values, ",");
    PlaceholderBound(keyIndex, values);
    assert KeyTokens(keyIndex)[..3] == ["WHERE", "alert_id", "="] && KeyTokens(keyIndex)[4..] == ["RETURNING", "*"];
  }

  lemma SetsSupply(cs: seq<Clause>, key: Value)
    ensures Supplies(Values(cs) + [key], 1, cs + [TOUCH])
  {
    ValuesSupply(cs, [key]);
    forall i | 0 <= i < |cs| + 1 ensures SuppliesOne(Values(cs) + [key], 1 + i, (cs + [TOUCH])[i].value) {
      if i < |cs| {
        assert SuppliesOne(Values(cs) + [key], 1 + i, cs[i].value);
      }
    }
  }

  /**
   * For every set of given fields, the UPDATE text read with its parameters targets the given alert and leaves it
   * as the record update asked for; with nothing to assign, the update asked for is none.
   */
  lemma UpdateAlertMeans(id: string, d: UpdateData, a: Alert, now: int)
    ensures Sets(d) != [] ==>
      var cs := Sets(d) + [TOUCH];
      var u := ParseUpdate(UpdateQuery(cs, |cs|), Values(Sets(d)) + [Str(id)]);
      u.Some? && u.value.key == Str(id) && Apply(u.value.assigns, a, now) == Updated(d, a, now)
    ensures Sets(d) == [] ==> Updated(d, a, a.updatedAt) == a
  {
    hide *;
    var cs := Sets(d) + [TOUCH];
    SetsWritten(d);
    SetsSupply(Sets(d), Str(id));
    UpdateQueryMeans(cs, |cs|, Values(Sets(d)) + [Str(id)]);
    SetsMeanUpdate(d, a, now);
    if Sets(d) == [] {
      NoSets(d, a);
    }
  }

  lemma NoSets(d: UpdateData, a: Alert)
    requires Sets(d) == []
    ensures Updated(d, a, a.updatedAt) == a
  {
    assert Optional("is_resolved", "=", BoolValue(Resolution(d.status))) == [];
    assert Optional("acknowledged", "=", BoolValue(d.acknowledged)) == [];
    assert Optional("acknowledged_by", "=", TextValue(d.acknowledgedBy)) == [];
    assert Optional("acknowledged_at", "=", TimeValue(d.acknowledgedAt)) == [];
    assert Optional("resolved_at", "=", TimeValue(d.resolvedAt)) == [] &&
      Optional("metadata", "=", TextValue(d.metadata)) == [];
  }

  /** Setting only the status gives a row of that status just when it is "resolved", "active" on a row not acknowledged,
      or "acknowledged" on a row that is so already. */
  lemma StatusUpdateExact(status: string, a: Alert, now: int)
    requires status == "active" || status == "acknowledged" || status == "resolved"
    ensures StatusOf(Updated(UpdateData(Some(status), None, None, None, None, None), a, now)) == status <==>
      status == "resolved" || (status == "active" && !a.acknowledged) ||
      (status == "acknowledged" && !a.isResolved && a.acknowledged)
  {
  }

  // ---------------------------------------------------------------- acknowledging and resolving

  /** The table row is this alert's life so far; its metadata are the JSON text of the alert's. */
  predicate Shows(a: Alert, r: AlertLifecycle.Row, json: map<string, string> -> string) {
    && a.isResolved == r.isResolved && a.acknowledged == r.acknowledged && a.createdAt == r.createdAt
    && a.acknowledgedBy == r.acknowledgedBy && a.acknowledgedAt == r.acknowledgedAt && a.resolvedAt == r.resolvedAt
    && a.metadata == json(r.metadata)
  }

  /** What updateAlert makes of the row: the text it sends, read with its parameters and carried out. */
  function Sent(id: string, d: UpdateData, a: Alert, now: int): Option<Alert> {
    var cs := Sets(d) + [TOUCH];
    var u := ParseUpdate(UpdateQuery(cs, |cs|), Values(Sets(d)) + [Str(id)]);
    if u.Some? && u.value.key == Str(id) then Some(Apply(u.value.assigns, a, now)) else None
  }

  lemma SentIsUpdated(id: string, d: UpdateData, a: Alert, now: int)
    requires Sets(d) != []
    ensures Sent(id, d, a, now) == Some(Updated(d, a, now))
  {
    hide Sets, ParseUpdate, UpdateQuery, Values, Apply, Updated;
    UpdateAlertMeans(id, d, a, now);
  }

  /** The update acknowledgeAlert sends for an alert not yet acknowledged leaves the row of the acknowledged alert. */
  lemma AcknowledgeSends(t: AlertLifecycle.Table, id: string, who: string, at: int, notes: map<string, string>,
                         json: map<string, string> -> string, a: Alert, now: int)
    requires id in t && !t[id].acknowledged && Shows(a, t[id], json)
    ensures var d := UpdateData(None, Some(true), Some(who), Some(at), None, Some(json(t[id].metadata + notes)));
      var after := Sent(id, d, a, now);
      after.Some? && Shows(after.value, AlertLifecycle.AfterAcknowledge(t, id, who, at, notes)[id], json)
  {
    hide Sent;
    var d := UpdateData(None, Some(true), Some(who), Some(at), None, Some(json(t[id].metadata + notes)));
    assert Sets(d) != [] by { assert Optional("acknowledged", "=", BoolValue(d.acknowledged)) != []; }
    SentIsUpdated(id, d, a, now);
  }

  /** The update resolveAlert sends for an alert that is open leaves the row of the resolved alert. */
  lemma ResolveSends(t: AlertLifecycle.Table, id: string, at: int, notes: map<string, string>,
                     json: map<string, string> -> string, a: Alert, now: int)
    requires AlertLifecycle.Open(t, id) && Shows(a, t[id], json)
    ensures var d := UpdateData(Some("resolved"), None, None, None, Some(at), Some(json(t[id].metadata + notes)));
      var after := Sent(id, d, a, now);
      after.Some? && Shows(after.value, AlertLifecycle.AfterResolve(t, id, at, notes)[id], json)
  {
    hide Sent;
    var d := UpdateData(Some("resolved"), None, None, None, Some(at), Some(json(t[id].metadata + notes)));
    assert Sets(d) != [] by { assert Optional("resolved_at", "=", TimeValue(d.resolvedAt)) != []; }
    SentIsUpdated(id, d, a, now);
  }

  // ---------------------------------------------------------------- the builder

  method PushSets(d: UpdateData) returns (b: Builder)
    ensures Built(b, Sets(d))
  {
    hide Built, Optional;
    b := Start();
    b := Push(b, "is_resolved", "=", BoolValue(Resolution(d.status)), []);
    ghost var cs := Optional("is_resolved", "=", BoolValue(Resolution(d.status)));
    assert [] + cs == cs;
    b := Push(b, "acknowledged", "=", BoolValue(d.acknowledged), cs);
    cs := cs + Optional("acknowledged", "=", BoolValue(d.acknowledged));
    b := Push(b, "acknowledged_by", "=", TextValue(d.acknowledgedBy), cs);
    cs := cs + Optional("acknowledged_by", "=", TextValue(d.acknowledgedBy));
    b := Push(b, "acknowledged_at", "=", TimeValue(d.acknowledgedAt), cs);
    cs := cs + Optional("acknowledged_at", "=", TimeValue(d.acknowledgedAt));
    b := Push(b, "resolved_at", "=", TimeValue(d.resolvedAt), cs);
    cs := cs + Optional("resolved_at", "=", TimeValue(d.resolvedAt));
    b := Push(b, "metadata", "=", TextValue(d.metadata), cs);
  }

  /** The query building of updateAlert; without a query the alert is only read. */
  method BuildUpdateAlert(id: string, d: UpdateData) returns (query: Option<string>, values: seq<Value>)
    ensures query.None? <==> Sets(d) == []
    ensures query.Some? ==>
      query.value == UpdateQuery(Sets(d) + [TOUCH], |Sets(d)| + 1) && values == Values(Sets(d)) + [Str(id)]
  {
    hide Sets, ClauseTexts, Values, Placeholder, Spaced, Join;
    var b := PushSets(d);
    values := b.values;
    if |b.texts| == 0 {
      return None, values;
    }
    TextsSnoc(Sets(d), TOUCH, 1);
    var texts := b.texts + ["updated_at = NOW()"];
    assert ClauseText(TOUCH, b.paramIndex) == "updated_at = NOW()" && Joiner(",") == ", ";
    values := values + [Str(id)];
    var key := " " + Spaced(["WHERE", "alert_id", "="]) + Placeholder(b.paramIndex) + " RETURNING *";
    query := Some(Spaced(["UPDATE", "alerts", "SET"]) + Join(texts, ", ") + key);
  }
}

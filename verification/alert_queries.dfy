// getAlerts: the WHERE clause built from optional filters, and what the count and page queries select.

module AlertQueries {
  import opened Text
  import opened SqlText
  import opened SqlClauses
  import AlertLifecycle

  /** A row of the alerts table; metadata is its JSON text. */
  datatype Alert = Alert(id: string, alertType: string, region: Option<string>, meterId: Option<string>,
                         isResolved: bool, acknowledged: bool, acknowledgedBy: Option<string>,
                         acknowledgedAt: Option<int>, resolvedAt: Option<int>, metadata: string,
                         createdAt: int, updatedAt: int)

  datatype Filters = Filters(status: Option<string>, alertType: Option<string>, region: Option<string>,
                             meterId: Option<string>, acknowledged: Option<bool>, fromDate: Option<int>,
                             toDate: Option<int>, limit: Option<int>, offset: Option<int>)

  // ---------------------------------------------------------------- the conditions

  /** A field that is undefined or the empty string does not filter. */
  predicate Given(field: Option<string>) {
    field.Some? && field.value != ""
  }

  function StatusValue(status: Option<string>): Option<Value> {
    if Given(status) then Some(Bool(status.value == "resolved")) else None
  }

  function StrValue(field: Option<string>): Option<Value> {
    if Given(field) then Some(Str(field.value)) else None
  }

  function BoolValue(field: Option<bool>): Option<Value> {
    if field.Some? then Some(Bool(field.value)) else None
  }

  function TimeValue(field: Option<int>): Option<Value> {
    if field.Some? then Some(Time(field.value)) else None
  }

  /** The conditions getAlerts pushes, in its order. */
  function Conds(f: Filters): seq<Clause> {
    Optional("is_resolved", "=", StatusValue(f.status)) + Optional("alert_type", "=", StrValue(f.alertType)) +
    Optional("region", "=", StrValue(f.region)) + Optional("meter_id", "=", StrValue(f.meterId)) +
    Optional("acknowledged", "=", BoolValue(f.acknowledged)) +
    Optional("created_at", ">=", TimeValue(f.fromDate)) + Optional("created_at", "<=", TimeValue(f.toDate))
  }

  function Nullable(s: Option<string>): Value {
    if s.Some? then Str(s.value) else Null
  }

  function Column(a: Alert, column: string): Value {
    if column == "is_resolved" then Bool(a.isResolved)
    else if column == "alert_type" then Str(a.alertType)
    else if column == "region" then Nullable(a.region)
    else if column == "meter_id" then Nullable(a.meterId)
    else if column == "acknowledged" then Bool(a.acknowledged)
    else if column == "created_at" then Time(a.createdAt)
    else Null
  }

  /** A comparison with NULL is not true. */
  predicate Holds(c: Clause, a: Alert) {
    var v := Column(a, c.column);
    if c.op == "=" then v == c.value && v != Null
    else if c.op == ">=" then v.Time? && c.value.Time? && v.t >= c.value.t
    else if c.op == "<=" then v.Time? && c.value.Time? && v.t <= c.value.t
    else false
  }

  predicate HoldAll(cs: seq<Clause>, a: Alert) {
    forall i :: 0 <= i < |cs| ==> Holds(cs[i], a)
  }

  /** What the filter asks for, field by field. */
  predicate Matches(f: Filters, a: Alert) {
    && (Given(f.status) ==> a.isResolved == (f.status.value == "resolved"))
    && (Given(f.alertType) ==> Some(a.alertType) == f.alertType)
    && (Given(f.region) ==> a.region == f.region)
    && (Given(f.meterId) ==> a.meterId == f.meterId)
    && (f.acknowledged.Some? ==> Some(a.acknowledged) == f.acknowledged)
    && (f.fromDate.Some? ==> f.fromDate.value <= a.createdAt)
    && (f.toDate.Some? ==> a.createdAt <= f.toDate.value)
  }

  lemma HoldAllAppend(x: seq<Clause>, y: seq<Clause>, a: Alert)
    ensures HoldAll(x + y, a) <==> HoldAll(x, a) && HoldAll(y, a)
  {
    if HoldAll(x + y, a) {
      forall i | 0 <= i < |x| ensures Holds(x[i], a) {
        assert (x + y)[i] == x[i];
      }
      forall i | 0 <= i < |y| ensures Holds(y[i], a) {
        assert (x + y)[|x| + i] == y[i];
      }
    }
  }

  lemma OptionalHolds(column: string, op: string, value: Option<Value>, a: Alert)
    ensures HoldAll(Optional(column, op, value), a) <==> (value.Some? ==> Holds(Clause(column, op, value.value), a))
  {
    hide Holds;
    if value.Some? {
      assert Optional(column, op, value)[0] == Clause(column, op, value.value);
    }
  }

  /** The bound conditions hold of a row exactly when the row is one the filter asks for. */
  lemma CondsMeanFilter(f: Filters, a: Alert)
    ensures HoldAll(Conds(f), a) <==> Matches(f, a)
  {
    hide HoldAll, Optional;
    var status := Optional("is_resolved", "=", StatusValue(f.status));
    var alertType := Optional("alert_type", "=", StrValue(f.alertType));
    var region, meter := Optional("region", "=", StrValue(f.region)), Optional("meter_id", "=", StrValue(f.meterId));
    var acknowledged := Optional("acknowledged", "=", BoolValue(f.acknowledged));
    var since, till :=
      Optional("created_at", ">=", TimeValue(f.fromDate)), Optional("created_at", "<=", TimeValue(f.toDate));
    HoldAllAppend(status, alertType, a);
    HoldAllAppend(status + alertType, region, a);
    HoldAllAppend(status + alertType + region, meter, a);
    HoldAllAppend(status + alertType + region + meter, acknowledged, a);
    HoldAllAppend(status + alertType + region + meter + acknowledged, since, a);
    HoldAllAppend(status + alertType + region + meter + acknowledged + since, till, a);
    OptionalHolds("is_resolved", "=", StatusValue(f.status), a);
    OptionalHolds("alert_type", "=", StrValue(f.alertType), a);
    OptionalHolds("region", "=", StrValue(f.region), a);
    OptionalHolds("meter_id", "=", StrValue(f.meterId), a);
    OptionalHolds("acknowledged", "=", BoolValue(f.acknowledged), a);
    OptionalHolds("created_at", ">=", TimeValue(f.fromDate), a);
    OptionalHolds("created_at", "<=", TimeValue(f.toDate), a);
  }

  lemma ColumnWords()
    ensures Word("is_resolved") && Word("alert_type") && Word("region") && Word("meter_id")
    ensures Word("acknowledged") && Word("created_at") && Word("=") && Word(">=") && Word("<=")
  {
  }

  lemma CondsWritten(f: Filters)
    ensures AllWritten(Conds(f))
  {
    hide Word;
    ColumnWords();
  }

  // ---------------------------------------------------------------- the statements

  function WhereClause(cs: seq<Clause>): string {
    if cs == [] then "" else "WHERE" + " " + ListText(cs, 1, "AND")
  }

  function WhereTokens(cs: seq<Clause>): seq<string> {
    if cs == [] then [] else ["WHERE"] + ListTokens(cs, 1, "AND")
  }

  /** The text after the WHERE clause: order, limit and offset. */
  function PageText(n: nat): string {
    " " + Spaced(["ORDER", "BY", "created_at", "DESC", "LIMIT"]) + Placeholder(n + 1) + " OFFSET " + Placeholder(n + 2)
  }

  function PageTokens(n: nat): seq<string> {
    ["ORDER", "BY", "created_at", "DESC", "LIMIT", Placeholder(n + 1), "OFFSET", Placeholder(n + 2)]
  }

  /** The data query; runs of blanks and line breaks of the template are written as one blank. */
  function DataQuery(cs: seq<Clause>): string {
    Spaced(["SELECT", "*", "FROM", "alerts"]) + WhereClause(cs) + PageText(|cs|)
  }

  /** The count query. */
  function CountQuery(cs: seq<Clause>): string {
    Spaced(["SELECT"]) + "COUNT(*) " + Spaced(["FROM", "alerts"]) + WhereClause(cs)
  }

  datatype Select = Select(conds: seq<Clause>, limit: Value, offset: Value)

  function ParseWhere(ts: seq<string>, values: seq<Value>): Option<(seq<Clause>, seq<string>)> {
    if ts != [] && ts[0] == "WHERE" then ParseList(ts[1..], values, "AND") else Some(([], ts))
  }

  /** Reads a page query over the alerts, newest first. */
  function ParseData(text: string, values: seq<Value>): Option<Select> {
    var ts := Lex(text);
    if |ts| < 4 || ts[..4] != ["SELECT", "*", "FROM", "alerts"] then None
    else
      var where_ := ParseWhere(ts[4..], values);
      if where_.None? then None
      else
        var rest := where_.value.1;
        if |rest| != 8 || rest[..5] != ["ORDER", "BY", "created_at", "DESC", "LIMIT"] || rest[6] != "OFFSET" then None
        else if Bound(rest[5], values).None? || Bound(rest[7], values).None? then None
        else Some(Select(where_.value.0, Bound(rest[5], values).value, Bound(rest[7], values).value))
  }

  function ParseCount(text: string, values: seq<Value>): Option<seq<Clause>> {
    var ts := Lex(text);
    if |ts| < 7 || ts[..7] != ["SELECT", "COUNT", "(", "*", ")", "FROM", "alerts"] then None
    else
      var where_ := ParseWhere(ts[7..], values);
      if where_.None? || where_.value.1 != [] then None else Some(where_.value.0)
  }

  lemma LexWhere(cs: seq<Clause>, rest: string)
    requires AllWritten(cs) && AtBreak(rest)
    ensures Lex(WhereClause(cs) + rest) == WhereTokens(cs) + Lex(rest)
  {
    hide Lex, AllWritten, ListText, ListTokens;
    if cs == [] {
      assert WhereClause(cs) + rest == rest;
    } else {
      assert WhereClause(cs) + rest == "WHERE" + " " + (ListText(cs, 1, "AND") + rest);
      LexSpacedWord("WHERE", ListText(cs, 1, "AND") + rest);
      LexList(cs, 1, "AND", rest);
    }
  }

  lemma LexKeywords(rest: string)
    ensures Lex(Spaced(["ORDER", "BY", "created_at", "DESC", "LIMIT"]) + rest) ==
      ["ORDER", "BY", "created_at", "DESC", "LIMIT"] + Lex(rest)
    ensures Lex("OFFSET" + " " + rest) == ["OFFSET"] + Lex(rest)
    ensures Lex(Spaced(["SELECT", "*", "FROM", "alerts"]) + rest) == ["SELECT", "*", "FROM", "alerts"] + Lex(rest)
  {
    hide Lex, Spaced;
    LexSpaced(["SELECT", "*", "FROM", "alerts"], rest);
    LexSpaced(["ORDER", "BY", "created_at", "DESC", "LIMIT"], rest);
    LexSpacedWord("OFFSET", rest);
  }

  lemma LexPage(n: nat)
    ensures Lex(PageText(n)) == PageTokens(n) && AtBreak(PageText(n))
  {
    hide Lex, Spaced, Placeholder, Word;
    var order, l, o := Spaced(["ORDER", "BY", "created_at", "DESC", "LIMIT"]), Placeholder(n + 1), Placeholder(n + 2);
    PlaceholderWord(n + 1);
    PlaceholderWord(n + 2);
    assert PageText(n) == " " + (order + (l + (" " + ("OFFSET" + " " + (o + "")))));
    LexBlank(order + (l + (" " + ("OFFSET" + " " + (o + "")))));
    LexKeywords(l + (" " + ("OFFSET" + " " + (o + ""))));
    LexWord(l, " " + ("OFFSET" + " " + (o + "")));
    LexBlank("OFFSET" + " " + (o + ""));
    LexKeywords(o + "");
    LexWord(o, "");
    LexNothing();
  }

  lemma LexData(cs: seq<Clause>)
    requires AllWritten(cs)
    ensures Lex(DataQuery(cs)) == ["SELECT", "*", "FROM", "alerts"] + (WhereTokens(cs) + PageTokens(|cs|))
  {
    LexKeywords(WhereClause(cs) + PageText(|cs|));
    hide *;
    var page := PageText(|cs|);
    LexPage(|cs|);
    LexWhere(cs, page);
    DataQueryIs(cs);
  }

  lemma DataQueryIs(cs: seq<Clause>)
    ensures DataQuery(cs) == Spaced(["SELECT", "*", "FROM", "alerts"]) + (WhereClause(cs) + PageText(|cs|))
  {
  }

  lemma ParseOfWhere(cs: seq<Clause>, ts: seq<string>, values: seq<Value>)
    requires Supplies(values, 1, cs) && (ts == [] || ts[0] == "ORDER")
    ensures ParseWhere(WhereTokens(cs) + ts, values) == Some((cs, ts))
  {
    hide ParseList, ListTokens, Supplies;
    if cs == [] {
      assert WhereTokens(cs) + ts == ts;
    } else {
      ParseOfList(cs, 1, ts, values, "AND");
      assert (WhereTokens(cs) + ts)[1..] == ListTokens(cs, 1, "AND") + ts;
    }
  }

  /** The data query, with limit and offset appended to the parameters, reads as the conditions, the limit and the
      offset. */
  lemma DataQueryMeans(cs: seq<Clause>, limit: Value, offset: Value)
    requires AllWritten(cs)
    ensures ParseData(DataQuery(cs), Values(cs) + [limit, offset]) == Some(Select(cs, limit, offset))
  {
    hide Lex, Placeholder, Bound, AllWritten, WhereTokens, ParseWhere, DataQuery, Supplies;
    var values, n := Values(cs) + [limit, offset], |cs|;
    LexData(cs);
    var ts := Lex(DataQuery(cs));
    assert ts[..4] == ["SELECT", "*", "FROM", "alerts"];
    assert ts[4..] == WhereTokens(cs) + PageTokens(n);
    ValuesSupply(cs, [limit, offset]);
    ParseOfWhere(cs, PageTokens(n), values);
    PlaceholderBound(n + 1, values);
    PlaceholderBound(n + 2, values);
    assert PageTokens(n)[..5] == ["ORDER", "BY", "created_at", "DESC", "LIMIT"];
  }

  lemma LexCount(rest: string)
    ensures Lex(Spaced(["SELECT"]) + "COUNT(*) " + Spaced(["FROM", "alerts"]) + rest) ==
      ["SELECT", "COUNT", "(", "*", ")", "FROM", "alerts"] + Lex(rest)
  {
    hide Lex, Spaced;
    var from := Spaced(["FROM", "alerts"]) + rest;
    assert Spaced(["SELECT"]) + "COUNT(*) " + Spaced(["FROM", "alerts"]) + rest ==
      Spaced(["SELECT"]) + ("COUNT" + (['('] + ("*" + ([')'] + (" " + from)))));
    LexSpaced(["SELECT"], "COUNT" + (['('] + ("*" + ([')'] + (" " + from)))));
    LexWord("COUNT", ['('] + ("*" + ([')'] + (" " + from))));
    LexPunct('(', "*" + ([')'] + (" " + from)));
    LexWord("*", [')'] + (" " + from));
    LexPunct(')', " " + from);
    LexBlank(from);
    LexSpaced(["FROM", "alerts"], rest);
  }

  /** The count query reads as the same conditions. */
  lemma CountQueryMeans(cs: seq<Clause>)
    requires AllWritten(cs)
    ensures ParseCount(CountQuery(cs), Values(cs)) == Some(cs)
  {
    hide Lex, Placeholder, Bound, AllWritten, WhereTokens, WhereClause, ParseWhere, Supplies, Spaced;
    assert WhereClause(cs) + "" == WhereClause(cs);
    LexCount(WhereClause(cs));
    LexWhere(cs, "");
    LexNothing();
    var ts := Lex(CountQuery(cs));
    assert ts[..7] == ["SELECT", "COUNT", "(", "*", ")", "FROM", "alerts"];
    assert ts[7..] == WhereTokens(cs) + [];
    assert Values(cs) + [] == Values(cs);
    ValuesSupply(cs, []);
    ParseOfWhere(cs, [], Values(cs));
  }

  /** filters.limit || 50 */
  function Limit(f: Filters): int {
    if f.limit.Some? && f.limit.value != 0 then f.limit.value else 50
  }

  function Offset(f: Filters): int {
    if f.offset.Some? then f.offset.value else 0
  }

  lemma PagesAsked(f: Filters)
    ensures Pages(f, Limit(f), Offset(f))
  {
  }

  /** The limit asked for, 50 for none or 0; the offset asked for, 0 for none. */
  ghost predicate Pages(f: Filters, limit: int, offset: int) {
    && (f.limit == None || f.limit == Some(0) ==> limit == 50)
    && (f.limit.Some? && f.limit.value != 0 ==> limit == f.limit.value)
    && (f.offset == None ==> offset == 0) && (f.offset.Some? ==> offset == f.offset.value)
  }

  /**
   * For every filter, the statements getAlerts sends count and page exactly the rows that match it:
   * the limit and offset placeholders stand for the limit and the offset.
   */
  lemma GetAlertsMeansFilter(f: Filters, a: Alert)
    ensures var data := ParseData(DataQuery(Conds(f)), Values(Conds(f)) + [Num(Limit(f)), Num(Offset(f))]);
      && data.Some? && data.value.limit.Num? && data.value.offset.Num?
      && Pages(f, data.value.limit.n, data.value.offset.n)
      && (HoldAll(data.value.conds, a) <==> Matches(f, a))
    ensures var count := ParseCount(CountQuery(Conds(f)), Values(Conds(f)));
      count.Some? && (HoldAll(count.value, a) <==> Matches(f, a))
  {
    PagesAsked(f);
    hide *;
    CondsWritten(f);
    DataQueryMeans(Conds(f), Num(Limit(f)), Num(Offset(f)));
    CountQueryMeans(Conds(f));
    CondsMeanFilter(f, a);
  }

  function StatusOf(a: Alert): string {
    match AlertLifecycle.StatusFrom(a.isResolved, a.acknowledged)
    case Resolved => "resolved"
    case Acknowledged => "acknowledged"
    case Active => "active"
  }

  /** A status filter selects the rows of that derived status only for "resolved"; for the others it means not
      resolved. */
  lemma StatusFilterExact(status: string, a: Alert)
    requires status == "active" || status == "acknowledged" || status == "resolved"
    ensures (HoldAll(Optional("is_resolved", "=", StatusValue(Some(status))), a) <==> StatusOf(a) == status) <==>
      status == "resolved" || a.isResolved || (a.acknowledged <==> status == "acknowledged")
  {
    hide HoldAll;
    OptionalHolds("is_resolved", "=", StatusValue(Some(status)), a);
  }

  // ---------------------------------------------------------------- the builder

  method PushConditions(f: Filters) returns (b: Builder)
    ensures Built(b, Conds(f))
  {
    hide Built, Optional;
    b := Start();
    b := Push(b, "is_resolved", "=", StatusValue(f.status), []);
    ghost var cs := Optional("is_resolved", "=", StatusValue(f.status));
    assert [] + cs == cs;
    b := Push(b, "alert_type", "=", StrValue(f.alertType), cs);
    cs := cs + Optional("alert_type", "=", StrValue(f.alertType));
    b := Push(b, "region", "=", StrValue(f.region), cs);
    cs := cs + Optional("region", "=", StrValue(f.region));
    b := Push(b, "meter_id", "=", StrValue(f.meterId), cs);
    cs := cs + Optional("meter_id", "=", StrValue(f.meterId));
    b := Push(b, "acknowledged", "=", BoolValue(f.acknowledged), cs);
    cs := cs + Optional("acknowledged", "=", BoolValue(f.acknowledged));
    b := Push(b, "created_at", ">=", TimeValue(f.fromDate), cs);
    cs := cs + Optional("created_at", ">=", TimeValue(f.fromDate));
    b := Push(b, "created_at", "<=", TimeValue(f.toDate), cs);
  }

  /** The query building of getAlerts. */
  method BuildGetAlerts(f: Filters)
    returns (countQuery: string, dataQuery: string, values: seq<Value>, dataValues: seq<Value>)
    ensures countQuery == CountQuery(Conds(f)) && values == Values(Conds(f))
    ensures dataQuery == DataQuery(Conds(f)) && dataValues == values + [Num(Limit(f)), Num(Offset(f))]
  {
    hide Conds, ClauseTexts, Placeholder, Spaced, Join, Values;
    var b := PushConditions(f);
    assert Joiner("AND") == " AND ";
    var where_ := if |b.texts| > 0 then "WHERE" + " " + Join(b.texts, " AND ") else "";
    values := b.values;
    countQuery := Spaced(["SELECT"]) + "COUNT(*) " + Spaced(["FROM", "alerts"]) + where_;
    var page := " " + Spaced(["ORDER", "BY", "created_at", "DESC", "LIMIT"]) +
      Placeholder(b.paramIndex) + " OFFSET " + Placeholder(b.paramIndex + 1);
    dataQuery := Spaced(["SELECT", "*", "FROM", "alerts"]) + where_ + page;
    dataValues := values + [Num(Limit(f)), Num(Offset(f))];
  }
}

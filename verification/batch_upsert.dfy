// The batch upsert of aggregates: ten numbered placeholders per row, and what the statement leaves in the table.

module BatchUpsert {
  import opened Text
  import opened SqlText
  import opened SqlClauses
  import opened Aggregator
  import Flush
  import Windows

  /** The ten parameters of one aggregate. */
  function Fields(a: Aggregate): (fields: seq<Value>)
    ensures |fields| == 10
  {
    [Str(a.meterId), Str(a.region), Str(a.windowStart), Real(Windows.Fin(a.avgPowerKw)),
     Real(Windows.Fin(a.maxPowerKw)), Real(a.minPowerKw), Real(Windows.Fin(a.energyKwhSum)),
     Real(Windows.Fin(a.voltageAvg)), Real(a.currentAvg), Num(a.readingCount)]
  }

  function Columns(): seq<string> {
    ["meter_id", "region", "window_start", "avg_power_kw", "max_power_kw", "min_power_kw", "energy_kwh_sum",
     "voltage_avg", "current_avg", "reading_count"]
  }

  function Keys(): seq<string> {
    ["meter_id", "window_start"]
  }

  function Overwritten(): seq<string> {
    ["region", "avg_power_kw", "max_power_kw", "min_power_kw", "energy_kwh_sum", "voltage_avg", "current_avg",
     "reading_count"]
  }

  // ---------------------------------------------------------------- the text

  /** k placeholders from number n on. */
  function Marks(n: nat, k: nat): (marks: seq<string>)
    ensures |marks| == k
  {
    if k == 0 then [] else Marks(n, k - 1) + [Placeholder(n + k - 1)]
  }

  /** `($${idx * 10 + 1}, …, $${idx * 10 + 10})` */
  function Tuple(idx: nat): string {
    "(" + Join(Marks(10 * idx + 1, 10), ", ") + ")"
  }

  /** The tuples of the aggregates from idx to m - 1. */
  function Tuples(idx: nat, m: nat): (tuples: seq<string>)
    requires idx <= m
    ensures |tuples| == m - idx
    decreases m - idx
  {
    if idx == m then [] else [Tuple(idx)] + Tuples(idx + 1, m)
  }

  /** `${column} = EXCLUDED.${column}` for each column */
  function Overwrites(columns: seq<string>): (cs: seq<Clause>)
    ensures |cs| == |columns|
  {
    if columns == [] then [] else Overwrites(columns[..|columns| - 1]) + [Overwrite(columns[|columns| - 1])]
  }

  function Overwrite(column: string): Clause {
    Clause(column, "=", Excluded(column))
  }

  /** The statement for m aggregates; line breaks and indentation of the template are written as single blanks. */
  function Query(table: string, m: nat): string {
    Spaced(["INSERT", "INTO", table]) + "(" + Join(Columns(), ", ") + ") " + Spaced(["VALUES"]) +
    Join(Tuples(0, m), ", ") +
    " " + ConflictText()
  }

  function ConflictText(): string {
    Spaced(["ON", "CONFLICT"]) + "(" + Join(Keys(), ", ") + ") " + Spaced(["DO", "UPDATE", "SET"]) +
    ListText(Overwrites(Overwritten()), 1, ",")
  }

  /** aggregates.flatMap(…) */
  function Params(aggregates: seq<Aggregate>): (params: seq<Value>)
    ensures |params| == 10 * |aggregates|
  {
    if aggregates == [] then []
    else Params(aggregates[..|aggregates| - 1]) + Fields(aggregates[|aggregates| - 1])
  }

  /** Field k of aggregate i is parameter 10 i + k + 1, that is, position 10 i + k. */
  lemma {:induction false} ParamsAt(aggregates: seq<Aggregate>, i: nat, k: nat)
    requires i < |aggregates| && k < 10
    ensures 10 * i + k < |Params(aggregates)| && Params(aggregates)[10 * i + k] == Fields(aggregates[i])[k]
    decreases |aggregates|
  {
    hide Fields;
    if i < |aggregates| - 1 {
      ParamsAt(aggregates[..|aggregates| - 1], i, k);
    }
  }

  // ---------------------------------------------------------------- tokens

  /** Words separated by commas. */
  function Commas(ws: seq<string>): seq<string> {
    if ws == [] then [] else if |ws| == 1 then [ws[0]] else [ws[0], ","] + Commas(ws[1..])
  }

  lemma LexComma(w: string, rest: string)
    requires Word(w)
    ensures Lex(w + (", " + rest)) == [w, ","] + Lex(rest)
  {
    hide Lex, Word;
    assert ", " + rest == [','] + (" " + rest);
    LexWord(w, ", " + rest);
    LexPunct(',', " " + rest);
    LexBlank(rest);
  }

  lemma {:induction false} LexItems(ws: seq<string>, rest: string)
    requires ws != [] && AtBreak(rest) && forall i :: 0 <= i < |ws| ==> Word(ws[i])
    ensures Lex(Join(ws, ", ") + rest) == Commas(ws) + Lex(rest)
    decreases |ws|
  {
    hide Lex, Word;
    if |ws| == 1 {
      LexWord(ws[0], rest);
    } else {
      var more := Join(ws[1..], ", ") + rest;
      assert Join(ws, ", ") + rest == ws[0] + (", " + more);
      LexComma(ws[0], more);
      LexItems(ws[1..], rest);
    }
  }

  /** A parenthesised list. */
  lemma LexNames(ws: seq<string>, rest: string)
    requires ws != [] && forall i :: 0 <= i < |ws| ==> Word(ws[i])
    ensures Lex("(" + Join(ws, ", ") + ")" + rest) == ["("] + Commas(ws) + [")"] + Lex(rest)
  {
    hide Lex, Word, Join, Commas;
    var inner := Join(ws, ", ");
    assert "(" + inner + ")" + rest == ['('] + (inner + ([')'] + rest));
    LexPunct('(', inner + ([')'] + rest));
    LexItems(ws, [')'] + rest);
    LexPunct(')', rest);
  }

  /** Reads items separated by commas up to a closing parenthesis. */
  function ParseItems(ts: seq<string>): (r: Option<(seq<string>, seq<string>)>)
    ensures r.Some? ==> |r.value.1| < |ts|
    decreases |ts|
  {
    if |ts| < 2 then None
    else if ts[1] == ")" then Some(([ts[0]], ts[2..]))
    else if ts[1] != "," then None
    else
      var more := ParseItems(ts[2..]);
      if more.None? then None else Some(([ts[0]] + more.value.0, more.value.1))
  }

  function ParseNames(ts: seq<string>): (r: Option<(seq<string>, seq<string>)>)
    ensures r.Some? ==> |r.value.1| < |ts|
  {
    if ts == [] || ts[0] != "(" then None else ParseItems(ts[1..])
  }

  lemma {:induction false} ParseOfItems(ws: seq<string>, ts: seq<string>)
    requires ws != []
    ensures ParseItems(Commas(ws) + ([")"] + ts)) == Some((ws, ts))
    decreases |ws|
  {
    var all := Commas(ws) + ([")"] + ts);
    if |ws| == 1 {
      assert all == [ws[0], ")"] + ts && all[2..] == ts;
      assert ws == [ws[0]];
    } else {
      var rest := Commas(ws[1..]) + ([")"] + ts);
      ParseOfItems(ws[1..], ts);
      assert all == [ws[0], ","] + rest && all[2..] == rest;
      assert ws == [ws[0]] + ws[1..];
    }
  }

  lemma ParseOfNames(ws: seq<string>, ts: seq<string>)
    requires ws != []
    ensures ParseNames(["("] + Commas(ws) + [")"] + ts) == Some((ws, ts))
  {
    hide ParseItems, Commas;
    ParseOfItems(ws, ts);
    assert (["("] + Commas(ws) + [")"] + ts)[1..] == Commas(ws) + ([")"] + ts);
  }

  // ---------------------------------------------------------------- tuples

  /** The parameters the tokens stand for, if all are placeholders. */
  function BindAll(tokens: seq<string>, params: seq<Value>): Option<seq<Value>> {
    if tokens == [] then Some([])
    else
      var before := BindAll(tokens[..|tokens| - 1], params);
      var last := Bound(tokens[|tokens| - 1], params);
      if before.None? || last.None? then None else Some(before.value + [last.value])
  }

  /** Reads tuples of placeholders separated by commas. */
  function ParseTuples(ts: seq<string>, params: seq<Value>): Option<(seq<seq<Value>>, seq<string>)>
    decreases |ts|
  {
    var list := ParseNames(ts);
    if list.None? then None
    else
      var row, rest := BindAll(list.value.0, params), list.value.1;
      if row.None? then None
      else if rest != [] && rest[0] == "," then
        var more := ParseTuples(rest[1..], params);
        if more.None? then None else Some(([row.value] + more.value.0, more.value.1))
      else Some(([row.value], rest))
  }

  function TupleTokens(idx: nat): seq<string> {
    ["("] + Commas(Marks(10 * idx + 1, 10)) + [")"]
  }

  function TuplesTokens(idx: nat, m: nat): seq<string>
    requires idx < m
    decreases m - idx
  {
    if idx == m - 1 then TupleTokens(idx) else TupleTokens(idx) + ([","] + TuplesTokens(idx + 1, m))
  }

  lemma {:induction false} MarksAre(n: nat, k: nat)
    ensures forall i :: 0 <= i < k ==> Word(Marks(n, k)[i])
    decreases k
  {
    hide Word, Placeholder;
    if k > 0 {
      MarksAre(n, k - 1);
      PlaceholderWord(n + k - 1);
    }
  }

  lemma SliceSnoc<T>(s: seq<T>, lo: nat, hi: nat)
    requires lo <= hi < |s|
    ensures s[lo..hi + 1] == s[lo..hi] + [s[hi]]
  {
  }

  lemma BindSnoc(tokens: seq<string>, token: string, params: seq<Value>)
    ensures BindAll(tokens, params).Some? && Bound(token, params).Some? ==>
      BindAll(tokens + [token], params) == Some(BindAll(tokens, params).value + [Bound(token, params).value])
  {
    hide Bound;
    assert (tokens + [token])[..|tokens|] == tokens;
  }

  lemma NothingBound(n: nat, params: seq<Value>)
    requires 1 <= n <= |params| + 1
    ensures BindAll(Marks(n, 0), params) == Some(params[n - 1..n - 1])
  {
    assert params[n - 1..n - 1] == [];
  }

  lemma MarksSnoc(n: nat, k: nat)
    requires k > 0
    ensures Marks(n, k) == Marks(n, k - 1) + [Placeholder(n + k - 1)]
  {
  }

  lemma {:induction false} BindMarks(n: nat, k: nat, params: seq<Value>)
    requires 1 <= n && n - 1 + k <= |params|
    ensures BindAll(Marks(n, k), params) == Some(params[n - 1..n - 1 + k])
    decreases k
  {
    hide *;
    if k == 0 {
      NothingBound(n, params);
    } else {
      BindMarks(n, k - 1, params);
      MarksSnoc(n, k);
      PlaceholderBound(n + k - 1, params);
      BindSnoc(Marks(n, k - 1), Placeholder(n + k - 1), params);
      SliceSnoc(params, n - 1, n + k - 2);
    }
  }

  /** Tuple idx of the statement stands for the fields of aggregate idx. */
  lemma BindTuple(aggregates: seq<Aggregate>, idx: nat)
    requires idx < |aggregates|
    ensures BindAll(Marks(10 * idx + 1, 10), Params(aggregates)) == Some(Fields(aggregates[idx]))
  {
    hide BindAll, Marks, Params, Fields;
    BindMarks(10 * idx + 1, 10, Params(aggregates));
    var row := Params(aggregates)[10 * idx..10 * idx + 10];
    forall k | 0 <= k < 10 ensures row[k] == Fields(aggregates[idx])[k] {
      ParamsAt(aggregates, idx, k);
    }
    assert row == Fields(aggregates[idx]);
  }

  lemma LexTuple(idx: nat, rest: string)
    ensures Lex(Tuple(idx) + rest) == TupleTokens(idx) + Lex(rest)
  {
    hide Lex, Word, Marks, Commas, Join;
    MarksAre(10 * idx + 1, 10);
    LexNames(Marks(10 * idx + 1, 10), rest);
  }

  lemma JoinTuples(idx: nat, m: nat)
    requires idx < m
    ensures Join(Tuples(idx, m), ", ") ==
      if idx == m - 1 then Tuple(idx) else Tuple(idx) + ", " + Join(Tuples(idx + 1, m), ", ")
  {
    hide Tuple;
    assert Tuples(idx, m)[1..] == Tuples(idx + 1, m);
  }

  lemma {:induction false} LexTuples(idx: nat, m: nat, rest: string)
    requires idx < m
    ensures Lex(Join(Tuples(idx, m), ", ") + rest) == TuplesTokens(idx, m) + Lex(rest)
    decreases m - idx
  {
    hide Lex, Tuple, TupleTokens, Join, Tuples;
    JoinTuples(idx, m);
    if idx == m - 1 {
      LexTuple(idx, rest);
    } else {
      var more := Join(Tuples(idx + 1, m), ", ") + rest;
      assert Join(Tuples(idx, m), ", ") + rest == Tuple(idx) + ([','] + (" " + more));
      LexTuple(idx, [','] + (" " + more));
      LexPunct(',', " " + more);
      LexBlank(more);
      LexTuples(idx + 1, m, rest);
    }
  }

  /** The fields of the aggregates from idx on. */
  function Rows(aggregates: seq<Aggregate>, idx: nat): (rows: seq<seq<Value>>)
    requires idx <= |aggregates|
    ensures |rows| == |aggregates| - idx
    decreases |aggregates| - idx
  {
    if idx == |aggregates| then [] else [Fields(aggregates[idx])] + Rows(aggregates, idx + 1)
  }

  lemma ParseTupleStep(ws: seq<string>, row: seq<Value>, ts: seq<string>, params: seq<Value>)
    requires ws != [] && BindAll(ws, params) == Some(row)
    ensures ts == [] || ts[0] != "," ==> ParseTuples(["("] + Commas(ws) + [")"] + ts, params) == Some(([row], ts))
    ensures ParseTuples(ts, params).Some? ==>
      var more := ParseTuples(ts, params).value;
      ParseTuples(["("] + Commas(ws) + [")"] + ([","] + ts), params) == Some(([row] + more.0, more.1))
  {
    hide ParseNames, Commas, BindAll;
    ParseOfNames(ws, ts);
    ParseOfNames(ws, [","] + ts);
    assert ([","] + ts)[1..] == ts;
  }

  lemma TokensNext(idx: nat, m: nat, ts: seq<string>)
    requires idx < m
    ensures var tuple := ["("] + Commas(Marks(10 * idx + 1, 10)) + [")"];
      TuplesTokens(idx, m) + ts ==
        if idx == m - 1 then tuple + ts else tuple + ([","] + (TuplesTokens(idx + 1, m) + ts))
  {
    hide Marks, Commas;
  }

  lemma RowsNext(aggregates: seq<Aggregate>, idx: nat)
    requires idx < |aggregates|
    ensures Rows(aggregates, idx) == [Fields(aggregates[idx])] + Rows(aggregates, idx + 1)
    ensures idx == |aggregates| - 1 ==> Rows(aggregates, idx) == [Fields(aggregates[idx])]
  {
    hide Fields;
  }

  lemma {:induction false} ParseOfTuples(aggregates: seq<Aggregate>, idx: nat, ts: seq<string>)
    requires idx < |aggregates| && (ts == [] || ts[0] != ",")
    ensures ParseTuples(TuplesTokens(idx, |aggregates|) + ts, Params(aggregates)) == Some((Rows(aggregates, idx), ts))
    decreases |aggregates| - idx
  {
    hide ParseTuples, Marks, Commas, Params, Fields, BindAll, TuplesTokens, Rows;
    BindTuple(aggregates, idx);
    var ws, row := Marks(10 * idx + 1, 10), Fields(aggregates[idx]);
    TokensNext(idx, |aggregates|, ts);
    RowsNext(aggregates, idx);
    if idx == |aggregates| - 1 {
      ParseTupleStep(ws, row, ts, Params(aggregates));
    } else {
      ParseOfTuples(aggregates, idx + 1, ts);
      ParseTupleStep(ws, row, TuplesTokens(idx + 1, |aggregates|) + ts, Params(aggregates));
    }
  }

  // ---------------------------------------------------------------- the statement

  datatype Upsert = Upsert(table: string, columns: seq<string>, rows: seq<seq<Value>>,
                           keys: seq<string>, assigns: seq<Clause>)

  function ParseConflict(ts: seq<string>): Option<(seq<string>, seq<Clause>)> {
    if |ts| < 2 || ts[..2] != ["ON", "CONFLICT"] then None
    else
      var keys := ParseNames(ts[2..]);
      if keys.None? || |keys.value.1| < 3 || keys.value.1[..3] != ["DO", "UPDATE", "SET"] then None
      else
        var assigns := ParseList(keys.value.1[3..], [], ",");
        if assigns.None? || assigns.value.1 != [] then None else Some((keys.value.0, assigns.value.0))
  }

  function ParseUpsert(text: string, params: seq<Value>): Option<Upsert> {
    var ts := Lex(text);
    if |ts| < 3 || ts[..2] != ["INSERT", "INTO"] then None
    else
      var columns := ParseNames(ts[3..]);
      if columns.None? || columns.value.1 == [] || columns.value.1[0] != "VALUES" then None
      else
        var tuples := ParseTuples(columns.value.1[1..], params);
        if tuples.None? then None
        else
          var conflict := ParseConflict(tuples.value.1);
          if conflict.None? then None
          else Some(Upsert(ts[2], columns.value.0, tuples.value.0, conflict.value.0, conflict.value.1))
  }

  lemma FieldWords()
    ensures Word("region") && Word("avg_power_kw") && Word("max_power_kw") && Word("min_power_kw")
    ensures Word("meter_id") && Word("window_start") && Word("=")
    ensures Word("energy_kwh_sum") && Word("voltage_avg") && Word("current_avg") && Word("reading_count")
  {
  }

  lemma ColumnWords()
    ensures Columns() != [] && Keys() != [] && Overwritten() != [] && Word("=")
    ensures forall i :: 0 <= i < |Columns()| ==> Word(Columns()[i])
    ensures forall i :: 0 <= i < |Keys()| ==> Word(Keys()[i])
    ensures forall i :: 0 <= i < |Overwritten()| ==> Word(Overwritten()[i])
  {
    hide Word;
    FieldWords();
  }

  /** The overwriting assignments are well written and need no parameters. */
  lemma {:induction false} OverwritesWritten(columns: seq<string>)
    requires Word("=") && forall i :: 0 <= i < |columns| ==> Word(columns[i])
    ensures |Overwrites(columns)| == |columns| && AllWritten(Overwrites(columns)) &&
      Supplies([], 1, Overwrites(columns))
    ensures forall i :: 0 <= i < |columns| ==> Overwrites(columns)[i] == Overwrite(columns[i])
  {
    hide Word;
    if columns != [] {
      OverwritesWritten(columns[..|columns| - 1]);
    }
  }

  function ConflictTokens(): seq<string> {
    ["ON", "CONFLICT"] +
    (["("] + Commas(Keys()) + [")"] + (["DO", "UPDATE", "SET"] + ListTokens(Overwrites(Overwritten()), 1, ",")))
  }

  lemma LexOn(rest: string)
    ensures Lex(Spaced(["ON", "CONFLICT"]) + rest) == ["ON", "CONFLICT"] + Lex(rest)
    ensures Lex(Spaced(["DO", "UPDATE", "SET"]) + rest) == ["DO", "UPDATE", "SET"] + Lex(rest)
  {
    hide Lex, Spaced;
    LexSpaced(["ON", "CONFLICT"], rest);
    LexSpaced(["DO", "UPDATE", "SET"], rest);
  }

  lemma LexConflict()
    ensures Lex(ConflictText()) == ConflictTokens()
  {
    hide Lex, Spaced, Join, Word, Commas, Overwrites, Columns, Keys, Overwritten, ListText, ListTokens, AllWritten;
    ColumnWords();
    OverwritesWritten(Overwritten());
    var assigns := Overwrites(Overwritten());
    var sets := ListText(assigns, 1, ",");
    var tail := Spaced(["DO", "UPDATE", "SET"]) + sets;
    var keys := Join(Keys(), ", ");
    assert ConflictText() == Spaced(["ON", "CONFLICT"]) + ("(" + keys + ")" + (" " + tail));
    LexOn("(" + keys + ")" + (" " + tail));
    LexNames(Keys(), " " + tail);
    LexBlank(tail);
    LexOn(sets);
    assert sets + "" == sets;
    LexList(assigns, 1, ",", "");
    LexNothing();
  }

  lemma ParseOfConflict()
    ensures ConflictTokens() != [] && ConflictTokens()[0] == "ON"
    ensures ParseConflict(ConflictTokens()) == Some((Keys(), Overwrites(Overwritten())))
  {
    hide ParseNames, ParseList, Commas, ListTokens, Columns, Keys, Overwritten, Overwrites, Supplies, AllWritten, Word;
    ColumnWords();
    OverwritesWritten(Overwritten());
    var assigns := Overwrites(Overwritten());
    var tail := ["DO", "UPDATE", "SET"] + ListTokens(assigns, 1, ",");
    var ts := ConflictTokens();
    assert ts[..2] == ["ON", "CONFLICT"] && ts[2..] == ["("] + Commas(Keys()) + [")"] + tail;
    ParseOfNames(Keys(), tail);
    assert ListTokens(assigns, 1, ",") + [] == ListTokens(assigns, 1, ",");
    assert tail[..3] == ["DO", "UPDATE", "SET"] && tail[3..] == ListTokens(assigns, 1, ",");
    ParseOfList(assigns, 1, [], [], ",");
  }

  function QueryTokens(table: string, m: nat): seq<string>
    requires m > 0
  {
    ["INSERT", "INTO", table] +
    (["("] + Commas(Columns()) + [")"] + (["VALUES"] + (TuplesTokens(0, m) + ConflictTokens())))
  }

  lemma LexInsert(table: string, rest: string)
    requires Word(table)
    ensures Lex(Spaced(["INSERT", "INTO", table]) + rest) == ["INSERT", "INTO", table] + Lex(rest)
  {
    hide Lex, Spaced;
    LexSpaced(["INSERT", "INTO", table], rest);
  }

  lemma LexValues(rest: string)
    ensures Lex(" " + (Spaced(["VALUES"]) + rest)) == ["VALUES"] + Lex(rest)
  {
    hide Lex, Spaced;
    LexBlank(Spaced(["VALUES"]) + rest);
    LexSpaced(["VALUES"], rest);
  }

  lemma LexQuery(table: string, m: nat)
    requires Word(table) && m > 0
    ensures Lex(Query(table, m)) == QueryTokens(table, m)
  {
    hide Lex, Spaced, Join, Word, Commas, Tuples, TuplesTokens, ConflictText, ConflictTokens, Columns, Keys,
      Overwritten;
    var tuples, conflict := Join(Tuples(0, m), ", "), " " + ConflictText();
    var values := " " + (Spaced(["VALUES"]) + (tuples + conflict));
    ColumnWords();
    assert AtBreak(conflict) by { assert conflict[0] == ' '; }
    assert Query(table, m) == Spaced(["INSERT", "INTO", table]) + ("(" + Join(Columns(), ", ") + ")" + values);
    LexInsert(table, "(" + Join(Columns(), ", ") + ")" + values);
    LexNames(Columns(), values);
    LexValues(tuples + conflict);
    LexTuples(0, m, conflict);
    LexBlank(ConflictText());
    LexConflict();
  }

  lemma ParseOfUpsert(text: string, params: seq<Value>, u: Upsert, tuples: seq<string>, conflict: seq<string>)
    requires u.columns != []
    requires Lex(text) == ["INSERT", "INTO", u.table] +
      (["("] + Commas(u.columns) + [")"] + (["VALUES"] + (tuples + conflict)))
    requires ParseTuples(tuples + conflict, params) == Some((u.rows, conflict))
    requires ParseConflict(conflict) == Some((u.keys, u.assigns))
    ensures ParseUpsert(text, params) == Some(u)
  {
    hide Lex, Commas, ParseNames, ParseTuples, ParseConflict;
    var ts, rest := Lex(text), ["VALUES"] + (tuples + conflict);
    assert ts[..2] == ["INSERT", "INTO"] && ts[2] == u.table && ts[3..] == ["("] + Commas(u.columns) + [")"] + rest;
    ParseOfNames(u.columns, rest);
    assert rest[1..] == tuples + conflict;
  }

  lemma QueryTokensAre(table: string, m: nat)
    requires m > 0
    ensures QueryTokens(table, m) == ["INSERT", "INTO", table] +
      (["("] + Commas(Columns()) + [")"] + (["VALUES"] + (TuplesTokens(0, m) + ConflictTokens())))
  {
  }

  /**
   * Read with its parameters, the statement inserts exactly one row per aggregate, in order, with the aggregate's ten
   * fields under their columns, and on a conflict of the key overwrites the eight other columns.
   */
  lemma UpsertMeans(table: string, aggregates: seq<Aggregate>)
    requires Word(table) && aggregates != []
    ensures ParseUpsert(Query(table, |aggregates|), Params(aggregates)) ==
      Some(Upsert(table, Columns(), Rows(aggregates, 0), Keys(), Overwrites(Overwritten())))
  {
    hide *;
    ColumnWords();
    LexQuery(table, |aggregates|);
    ParseOfConflict();
    ParseOfTuples(aggregates, 0, ConflictTokens());
    QueryTokensAre(table, |aggregates|);
    ParseOfUpsert(Query(table, |aggregates|), Params(aggregates),
                  Upsert(table, Columns(), Rows(aggregates, 0), Keys(), Overwrites(Overwritten())),
                  TuplesTokens(0, |aggregates|), ConflictTokens());
  }

  // ---------------------------------------------------------------- what the table holds afterwards

  /** The field an aggregate has for a column. */
  function ColumnOf(a: Aggregate, column: string): Option<Value> {
    if column == "meter_id" then Some(Str(a.meterId))
    else if column == "region" then Some(Str(a.region))
    else if column == "window_start" then Some(Str(a.windowStart))
    else if column == "avg_power_kw" then Some(Real(Windows.Fin(a.avgPowerKw)))
    else if column == "max_power_kw" then Some(Real(Windows.Fin(a.maxPowerKw)))
    else if column == "min_power_kw" then Some(Real(a.minPowerKw))
    else if column == "energy_kwh_sum" then Some(Real(Windows.Fin(a.energyKwhSum)))
    else if column == "voltage_avg" then Some(Real(Windows.Fin(a.voltageAvg)))
    else if column == "current_avg" then Some(Real(a.currentAvg))
    else if column == "reading_count" then Some(Num(a.readingCount))
    else None
  }

  /** The k-th parameter of an aggregate is its field for the k-th column of the statement. */
  lemma ColumnsLineUp(a: Aggregate, k: nat)
    requires k < 10
    ensures |Columns()| == 10 && ColumnOf(a, Columns()[k]) == Some(Fields(a)[k])
  {
  }

  /** A table row by column, and a table by the values of its key columns. */
  type Record = map<string, Value>
  type Records = map<seq<Value>, Record>

  /** The row VALUES gives for these columns. */
  function NewRecord(columns: seq<string>, row: seq<Value>): (r: Record)
    requires |columns| == |row|
    ensures forall c :: c in r <==> c in columns
  {
    if columns == [] then map[]
    else
      var n := |columns| - 1;
      assert columns == columns[..n] + [columns[n]];
      NewRecord(columns[..n], row[..n])[columns[n] := row[n]]
  }

  function KeyValues(keys: seq<string>, r: Record): (values: seq<Value>)
    requires forall i :: 0 <= i < |keys| ==> keys[i] in r
  {
    seq(|keys|, i requires 0 <= i < |keys| => r[keys[i]])
  }

  /** SET column = value, …: EXCLUDED.column is the new row's value. */
  function Assigned(current: Record, new_: Record, assigns: seq<Clause>): Record {
    if assigns == [] then current
    else
      var n := |assigns| - 1;
      var v := assigns[n].value;
      Assigned(current, new_, assigns[..n])
        [assigns[n].column := if v.Excluded? && v.column in new_ then new_[v.column] else v]
  }

  /** Every row has a value for each column, and the key columns are among them. */
  ghost predicate WellFormed(u: Upsert) {
    && (forall i :: 0 <= i < |u.rows| ==> |u.rows[i]| == |u.columns|)
    && forall i :: 0 <= i < |u.keys| ==> u.keys[i] in u.columns
  }

  /** INSERT … ON CONFLICT (keys) DO UPDATE SET …, for the first n rows in order. */
  ghost function Execute(t: Records, u: Upsert, n: nat): Records
    requires WellFormed(u) && n <= |u.rows|
  {
    if n == 0 then t
    else
      var before, new_ := Execute(t, u, n - 1), NewRecord(u.columns, u.rows[n - 1]);
      var key := KeyValues(u.keys, new_);
      before[key := if key in before then Assigned(before[key], new_, u.assigns) else new_]
  }

  // ---------------------------------------------------------------- aggregates as rows

  function RecordOf(a: Aggregate): Record {
    NewRecord(Columns(), Fields(a))
  }

  function RecordKey(k: (string, string)): seq<Value> {
    [Str(k.0), Str(k.1)]
  }

  /** The table holds these aggregates under their primary keys, and no other row. */
  ghost predicate Represents(r: Records, t: Flush.Table) {
    && (forall k :: RecordKey(k) in r <==> k in t)
    && forall k :: k in t ==> r[RecordKey(k)] == RecordOf(t[k]) && RowKey(t[k]) == k
  }

  ghost predicate DistinctColumns(columns: seq<string>) {
    forall i, j :: 0 <= i < j < |columns| ==> columns[i] != columns[j]
  }

  lemma {:induction false} NewRecordAt(columns: seq<string>, row: seq<Value>, i: nat)
    requires |columns| == |row| && i < |columns| && DistinctColumns(columns)
    ensures NewRecord(columns, row)[columns[i]] == row[i]
    decreases |columns|
  {
    var n := |columns| - 1;
    if i < n {
      NewRecordAt(columns[..n], row[..n], i);
      assert columns[..n][i] == columns[i];
    }
  }

  lemma ColumnsDistinct()
    ensures |Columns()| == 10 && DistinctColumns(Columns())
  {
    var c := Columns();
    assert forall i :: 0 <= i < 10 ==> Position(c[i]) == i;
  }

  function Position(column: string): int {
    if column == "meter_id" then 0 else if column == "region" then 1 else if column == "window_start" then 2
    else if column == "avg_power_kw" then 3 else if column == "max_power_kw" then 4
    else if column == "min_power_kw" then 5 else if column == "energy_kwh_sum" then 6
    else if column == "voltage_avg" then 7 else if column == "current_avg" then 8
    else 9
  }

  /** The row of an aggregate has its field under each column. */
  lemma RecordHas(a: Aggregate, c: string)
    requires c in Columns()
    ensures ColumnOf(a, c) == Some(RecordOf(a)[c])
  {
    ColumnsDistinct();
    hide Columns, Fields, ColumnOf;
    var k :| 0 <= k < |Columns()| && Columns()[k] == c;
    ColumnsLineUp(a, k);
    NewRecordAt(Columns(), Fields(a), k);
  }

  lemma KeyOfRecord(a: Aggregate)
    ensures Keys()[0] in Columns() && Keys()[1] in Columns()
    ensures KeyValues(Keys(), RecordOf(a)) == RecordKey(RowKey(a))
  {
    assert Columns()[0] == Keys()[0] && Columns()[2] == Keys()[1];
    RecordHas(a, Keys()[0]);
    RecordHas(a, Keys()[1]);
    hide Columns, RecordOf;
  }

  lemma {:induction false} AssignedAt(current: Record, new_: Record, columns: seq<string>, c: string)
    requires current.Keys == new_.Keys && forall i :: 0 <= i < |columns| ==> columns[i] in new_
    ensures Assigned(current, new_, Overwrites(columns)).Keys == new_.Keys
    ensures c in new_ ==>
      Assigned(current, new_, Overwrites(columns))[c] == if c in columns then new_[c] else current[c]
    decreases |columns|
  {
    if columns != [] {
      var n := |columns| - 1;
      AssignedAt(current, new_, columns[..n], c);
      assert columns == columns[..n] + [columns[n]];
      assert Overwrites(columns)[..n] == Overwrites(columns[..n]);
    }
  }

  /** The eight overwritten columns and the two key columns are all there are. */
  lemma OverwrittenOrKey(c: string)
    requires c in Columns()
    ensures c in Overwritten() || c in Keys()
  {
    var o := Overwritten();
    assert o[0] in o && o[1] in o && o[2] in o && o[3] in o && o[4] in o && o[5] in o && o[6] in o && o[7] in o;
    assert Keys()[0] in Keys() && Keys()[1] in Keys();
  }

  lemma OverwrittenAreColumns(i: nat)
    requires i < |Overwritten()|
    ensures Overwritten()[i] in Columns()
  {
    var c := Columns();
    assert c[1] in c && c[3] in c && c[4] in c && c[5] in c && c[6] in c && c[7] in c && c[8] in c && c[9] in c;
  }

  /** Overwriting on a key conflict leaves nothing of the old row. */
  lemma AssignedIsNew(current: Aggregate, a: Aggregate)
    requires RowKey(current) == RowKey(a)
    ensures Assigned(RecordOf(current), RecordOf(a), Overwrites(Overwritten())) == RecordOf(a)
  {
    var old_, new_, columns := RecordOf(current), RecordOf(a), Overwritten();
    KeyFieldsAgree(current, a);
    hide Assigned, Overwrites, Overwritten, Columns, Keys, RecordOf, ColumnOf;
    var all := Columns();
    assert forall c :: c in old_ <==> c in new_ by { SameColumns(current, a); }
    forall i | 0 <= i < |columns| ensures columns[i] in new_ {
      OverwrittenAreColumns(i);
      HasColumn(a, columns[i]);
    }
    var merged := Assigned(old_, new_, Overwrites(columns));
    AssignedAt(old_, new_, columns, "");
    forall c | c in new_ ensures merged[c] == new_[c] {
      AssignedAt(old_, new_, columns, c);
      HasColumn(a, c);
      OverwrittenOrKey(c);
      RecordHas(a, c);
      RecordHas(current, c);
    }
  }

  lemma KeyFieldsAgree(current: Aggregate, a: Aggregate)
    requires RowKey(current) == RowKey(a)
    ensures forall c :: c in Keys() ==> ColumnOf(current, c) == ColumnOf(a, c)
  {
  }

  lemma HasColumn(a: Aggregate, c: string)
    ensures c in RecordOf(a) <==> c in Columns()
  {
    hide Columns, Fields;
    ColumnsDistinct();
  }

  lemma SameColumns(a: Aggregate, b: Aggregate)
    ensures forall c :: c in RecordOf(a) <==> c in RecordOf(b)
  {
    forall c ensures c in RecordOf(a) <==> c in RecordOf(b) {
      HasColumn(a, c);
      HasColumn(b, c);
    }
  }

  // ---------------------------------------------------------------- the statement as an upsert

  function Parsed(table: string, aggregates: seq<Aggregate>): Upsert {
    Upsert(table, Columns(), Rows(aggregates, 0), Keys(), Overwrites(Overwritten()))
  }

  lemma {:induction false} RowsAt(aggregates: seq<Aggregate>, idx: nat, i: nat)
    requires idx + i < |aggregates|
    ensures Rows(aggregates, idx)[i] == Fields(aggregates[idx + i])
    decreases i
  {
    hide Fields;
    if i > 0 {
      RowsAt(aggregates, idx + 1, i - 1);
    }
  }

  lemma ParsedWellFormed(table: string, aggregates: seq<Aggregate>)
    ensures WellFormed(Parsed(table, aggregates))
  {
    ColumnsDistinct();
    var u := Parsed(table, aggregates);
    forall i | 0 <= i < |u.rows| ensures |u.rows[i]| == |u.columns| {
      RowsAt(aggregates, 0, i);
    }
    assert Columns()[0] == Keys()[0] && Columns()[2] == Keys()[1];
  }

  lemma RepresentsOneMore(r: Records, t: Flush.Table, a: Aggregate, record: Record)
    requires Represents(r, t) && record == RecordOf(a)
    ensures Represents(r[RecordKey(RowKey(a)) := record], t[RowKey(a) := a])
  {
    hide RecordOf;
    forall k ensures RecordKey(k) == RecordKey(RowKey(a)) <==> k == RowKey(a) {
      assert RecordKey(k)[0] == Str(k.0) && RecordKey(k)[1] == Str(k.1);
    }
  }

  lemma {:induction false} ExecuteRepresents(r: Records, t: Flush.Table, table: string, aggregates: seq<Aggregate>,
                                             n: nat)
    requires Represents(r, t) && n <= |aggregates| && WellFormed(Parsed(table, aggregates))
    ensures Represents(Execute(r, Parsed(table, aggregates), n), Flush.UpsertAll(t, aggregates[..n]))
  {
    hide Represents, RecordOf, NewRecord, KeyValues, Assigned, Overwrites, Columns, Keys, Fields, Rows, WellFormed;
    if n > 0 {
      ExecuteRepresents(r, t, table, aggregates, n - 1);
      var a := aggregates[n - 1];
      var before, rows := Execute(r, Parsed(table, aggregates), n - 1), Flush.UpsertAll(t, aggregates[..n - 1]);
      assert aggregates[..n][..n - 1] == aggregates[..n - 1];
      RowsAt(aggregates, 0, n - 1);
      KeyOfRecord(a);
      RecordUnfolds(a);
      if RecordKey(RowKey(a)) in before {
        CurrentRow(before, rows, RowKey(a));
        AssignedIsNew(rows[RowKey(a)], a);
      }
      RepresentsOneMore(before, rows, a, RecordOf(a));
    } else {
      assert aggregates[..0] == [];
    }
  }

  lemma RecordUnfolds(a: Aggregate)
    ensures |Columns()| == |Fields(a)| && RecordOf(a) == NewRecord(Columns(), Fields(a))
  {
  }

  lemma CurrentRow(r: Records, t: Flush.Table, k: (string, string))
    requires Represents(r, t) && RecordKey(k) in r
    ensures k in t && r[RecordKey(k)] == RecordOf(t[k]) && RowKey(t[k]) == k
  {
  }

  /** The text sent, read with its parameters and carried out, does to the table what the flush protocol takes an upsert
      to do. */
  lemma StatementIsUpsert(r: Records, t: Flush.Table, table: string, aggregates: seq<Aggregate>)
    requires Word(table) && aggregates != [] && Represents(r, t)
    ensures var u := ParseUpsert(Query(table, |aggregates|), Params(aggregates));
      && u.Some? && u.value.table == table && WellFormed(u.value)
      && Represents(Execute(r, u.value, |u.value.rows|), Flush.UpsertAll(t, aggregates))
  {
    hide *;
    UpsertMeans(table, aggregates);
    ParsedIs(table, aggregates);
    ParsedWellFormed(table, aggregates);
    ExecuteRepresents(r, t, table, aggregates, |aggregates|);
    assert aggregates[..|aggregates|] == aggregates;
  }

  lemma ParsedIs(table: string, aggregates: seq<Aggregate>)
    ensures Parsed(table, aggregates) ==
      Upsert(table, Columns(), Rows(aggregates, 0), Keys(), Overwrites(Overwritten()))
    ensures |Parsed(table, aggregates).rows| == |aggregates| && Parsed(table, aggregates).table == table
  {
  }

  ghost predicate DistinctKeys(aggregates: seq<Aggregate>) {
    forall i, j :: 0 <= i < j < |aggregates| ==> RowKey(aggregates[i]) != RowKey(aggregates[j])
  }

  /** Afterwards the row of every aggregate of the batch is that aggregate; rows of other keys are as before. */
  lemma StatementOverwrites(r: Records, t: Flush.Table, table: string, aggregates: seq<Aggregate>, k: (string, string))
    requires Word(table) && aggregates != [] && Represents(r, t) && DistinctKeys(aggregates)
    ensures var u := ParseUpsert(Query(table, |aggregates|), Params(aggregates));
      && u.Some? && WellFormed(u.value)
      && var r', key := Execute(r, u.value, |u.value.rows|), RecordKey(k);
      && (forall i :: 0 <= i < |aggregates| && RowKey(aggregates[i]) == k ==>
          key in r' && r'[key] == RecordOf(aggregates[i]))
      && ((forall i :: 0 <= i < |aggregates| ==> RowKey(aggregates[i]) != k) ==>
        (key in r' <==> key in r) && (key in r ==> r'[key] == r[key]))
  {
    hide Execute, Flush.UpsertAll, ParseUpsert, Query, Params, WellFormed, RecordOf, RecordKey;
    StatementIsUpsert(r, t, table, aggregates);
    Flush.UpsertLookup(t, aggregates, k);
  }
}

// Lists of clauses `column op value`, as WHERE conditions joined by AND and SET lists joined by commas:
// their text with numbered placeholders, and what that text reads back as.

module SqlClauses {
  import opened Text
  import opened SqlText

  /** A condition or an assignment with its value. */
  datatype Clause = Clause(column: string, op: string, value: Value)

  predicate Written(c: Clause) {
    Word(c.column) && Word(c.op) && (c.value.Excluded? ==> Word(c.value.column))
  }

  predicate AllWritten(cs: seq<Clause>) {
    forall i :: 0 <= i < |cs| ==> Written(cs[i])
  }

  // ---------------------------------------------------------------- values

  /** NOW() and EXCLUDED.column are written out; every other value is a parameter. */
  predicate Literal(v: Value) {
    v.Now? || v.Excluded?
  }

  function Expr(v: Value, n: nat): string {
    match v
    case Now => "NOW()"
    case Excluded(column) => "EXCLUDED." + column
    case _ => Placeholder(n)
  }

  function ExprTokens(v: Value, n: nat): (ts: seq<string>)
    ensures |ts| > 0
  {
    match v
    case Now => ["NOW", "(", ")"]
    case Excluded(column) => ["EXCLUDED." + column]
    case _ => [Placeholder(n)]
  }

  /** A value at the head of the tokens. */
  function ParseExpr(ts: seq<string>, values: seq<Value>): (r: Option<(Value, seq<string>)>)
    ensures r.Some? ==> |r.value.1| < |ts|
  {
    if ts == [] then None
    else if |ts| >= 3 && ts[0] == "NOW" && ts[1] == "(" && ts[2] == ")" then Some((Now, ts[3..]))
    else if "EXCLUDED." <= ts[0] then Some((Excluded(ts[0][9..]), ts[1..]))
    else if Bound(ts[0], values).Some? then Some((Bound(ts[0], values).value, ts[1..]))
    else None
  }

  /** The parameter n is the value, unless the value is written out. */
  predicate SuppliesOne(values: seq<Value>, n: nat, v: Value) {
    !Literal(v) ==> 1 <= n <= |values| && values[n - 1] == v
  }

  lemma LexExpr(v: Value, n: nat, rest: string)
    requires AtBreak(rest) && (v.Excluded? ==> Word(v.column))
    ensures Lex(Expr(v, n) + rest) == ExprTokens(v, n) + Lex(rest)
  {
    hide Lex, Placeholder;
    match v
    case Now =>
      assert "NOW()" + rest == "NOW" + (['('] + ([')'] + rest));
      LexWord("NOW", ['('] + ([')'] + rest));
      LexPunct('(', [')'] + rest);
      LexPunct(')', rest);
    case Excluded(column) =>
      LexWord("EXCLUDED." + column, rest);
    case _ =>
      PlaceholderWord(n);
      LexWord(Placeholder(n), rest);
  }

  lemma ParseOfExpr(v: Value, n: nat, ts: seq<string>, values: seq<Value>)
    requires SuppliesOne(values, n, v)
    ensures ParseExpr(ExprTokens(v, n) + ts, values) == Some((v, ts))
  {
    hide Bound;
    var all := ExprTokens(v, n) + ts;
    match v
    case Now => assert all[3..] == ts;
    case Excluded(column) =>
      assert ("EXCLUDED." + column)[9..] == column;
      assert all[1..] == ts;
    case _ =>
      PlaceholderBound(n, values);
      assert Placeholder(n)[0] == '$' && all[1..] == ts;
  }

  // ---------------------------------------------------------------- lists

  /** `${column} ${op} $${n}`, or with the value written out */
  function ClauseText(c: Clause, n: nat): string {
    c.column + " " + c.op + " " + Expr(c.value, n)
  }

  /** The clause texts, numbered from n on. */
  function ClauseTexts(cs: seq<Clause>, n: nat): (texts: seq<string>)
    ensures |texts| == |cs|
  {
    if cs == [] then [] else [ClauseText(cs[0], n)] + ClauseTexts(cs[1..], n + 1)
  }

  /** What stands between two clauses: ", " or a word between blanks. */
  function Joiner(sep: string): string {
    if sep == "," then ", " else " " + sep + " "
  }

  predicate Separator(sep: string) {
    sep == "," || sep == "AND"
  }

  function ListText(cs: seq<Clause>, n: nat, sep: string): string {
    Join(ClauseTexts(cs, n), Joiner(sep))
  }

  function OneTokens(c: Clause, n: nat): seq<string> {
    [c.column, c.op] + ExprTokens(c.value, n)
  }

  function ListTokens(cs: seq<Clause>, n: nat, sep: string): seq<string> {
    if cs == [] then []
    else if |cs| == 1 then OneTokens(cs[0], n)
    else OneTokens(cs[0], n) + ([sep] + ListTokens(cs[1..], n + 1, sep))
  }

  /** Reads clauses joined by sep from the tokens; the rest of the tokens is returned. */
  function ParseList(ts: seq<string>, values: seq<Value>, sep: string): Option<(seq<Clause>, seq<string>)>
    decreases |ts|
  {
    if |ts| < 3 then None
    else
      var e := ParseExpr(ts[2..], values);
      if e.None? then None
      else
        var (v, rest) := e.value;
        var c := Clause(ts[0], ts[1], v);
        if rest != [] && rest[0] == sep then
          var more := ParseList(rest[1..], values, sep);
          if more.None? then None else Some(([c] + more.value.0, more.value.1))
        else Some(([c], rest))
  }

  lemma LexOne(c: Clause, n: nat, rest: string)
    requires Written(c) && AtBreak(rest)
    ensures Lex(ClauseText(c, n) + rest) == OneTokens(c, n) + Lex(rest)
  {
    hide Lex, Word, Expr, ExprTokens;
    var value := Expr(c.value, n) + rest;
    assert ClauseText(c, n) + rest == c.column + " " + (c.op + " " + value);
    LexSpacedWord(c.column, c.op + " " + value);
    LexSpacedWord(c.op, value);
    LexExpr(c.value, n, rest);
  }

  lemma LexJoiner(sep: string, rest: string)
    requires Separator(sep)
    ensures AtBreak(Joiner(sep) + rest) && Lex(Joiner(sep) + rest) == [sep] + Lex(rest)
  {
    hide Lex;
    if sep == "," {
      assert Joiner(sep) + rest == [','] + (" " + rest);
      LexPunct(',', " " + rest);
      LexBlank(rest);
    } else {
      assert Joiner(sep) + rest == " " + ("AND" + " " + rest);
      LexBlank("AND" + " " + rest);
      LexSpacedWord("AND", rest);
    }
  }

  lemma ListTextIs(cs: seq<Clause>, n: nat, sep: string)
    requires cs != []
    ensures ListText(cs, n, sep) ==
      if |cs| == 1 then ClauseText(cs[0], n) else ClauseText(cs[0], n) + Joiner(sep) + ListText(cs[1..], n + 1, sep)
  {
    hide ClauseText, Joiner;
    assert ClauseTexts(cs, n)[1..] == ClauseTexts(cs[1..], n + 1);
  }

  lemma {:induction false} LexList(cs: seq<Clause>, n: nat, sep: string, rest: string)
    requires cs != [] && AllWritten(cs) && Separator(sep) && AtBreak(rest)
    ensures Lex(ListText(cs, n, sep) + rest) == ListTokens(cs, n, sep) + Lex(rest)
    decreases |cs|
  {
    hide Lex, Written, ClauseText, OneTokens, ListText, Joiner;
    ListTextIs(cs, n, sep);
    if |cs| == 1 {
      LexOne(cs[0], n, rest);
    } else {
      var more := ListText(cs[1..], n + 1, sep) + rest;
      assert ListText(cs, n, sep) + rest == ClauseText(cs[0], n) + (Joiner(sep) + more);
      LexJoiner(sep, more);
      LexOne(cs[0], n, Joiner(sep) + more);
      LexList(cs[1..], n + 1, sep, rest);
    }
  }

  /** Parameter n - 1 + i is the value of clause i, unless that value is written out. */
  predicate Supplies(values: seq<Value>, n: nat, cs: seq<Clause>) {
    forall i :: 0 <= i < |cs| ==> SuppliesOne(values, n + i, cs[i].value)
  }

  lemma ParseStep(c: Clause, n: nat, ts: seq<string>, values: seq<Value>, sep: string)
    requires SuppliesOne(values, n, c.value)
    ensures ts == [] || ts[0] != sep ==> ParseList(OneTokens(c, n) + ts, values, sep) == Some(([c], ts))
    ensures ParseList(ts, values, sep).Some? ==>
      var more := ParseList(ts, values, sep).value;
      ParseList(OneTokens(c, n) + ([sep] + ts), values, sep) == Some(([c] + more.0, more.1))
  {
    hide ParseExpr, ExprTokens, SuppliesOne;
    ParseOfExpr(c.value, n, ts, values);
    ParseOfExpr(c.value, n, [sep] + ts, values);
    assert (OneTokens(c, n) + ts)[2..] == ExprTokens(c.value, n) + ts;
    assert (OneTokens(c, n) + ([sep] + ts))[2..] == ExprTokens(c.value, n) + ([sep] + ts);
    assert ([sep] + ts)[1..] == ts;
  }

  lemma SuppliesRest(values: seq<Value>, n: nat, cs: seq<Clause>)
    requires cs != [] && Supplies(values, n, cs)
    ensures SuppliesOne(values, n, cs[0].value) && Supplies(values, n + 1, cs[1..])
  {
    hide SuppliesOne;
    assert SuppliesOne(values, n + 0, cs[0].value);
    forall i | 0 <= i < |cs| - 1 ensures SuppliesOne(values, n + 1 + i, cs[1..][i].value) {
      assert SuppliesOne(values, n + (i + 1), cs[i + 1].value);
    }
  }

  lemma ListTokensNext(cs: seq<Clause>, n: nat, sep: string, ts: seq<string>)
    requires cs != []
    ensures |cs| == 1 ==> ListTokens(cs, n, sep) + ts == OneTokens(cs[0], n) + ts
    ensures |cs| > 1 ==>
      ListTokens(cs, n, sep) + ts == OneTokens(cs[0], n) + ([sep] + (ListTokens(cs[1..], n + 1, sep) + ts))
  {
    hide OneTokens;
  }

  lemma {:induction false} ParseOfList(cs: seq<Clause>, n: nat, ts: seq<string>, values: seq<Value>, sep: string)
    requires cs != [] && Supplies(values, n, cs) && (ts == [] || ts[0] != sep)
    ensures ParseList(ListTokens(cs, n, sep) + ts, values, sep) == Some((cs, ts))
    decreases |cs|
  {
    hide OneTokens, ListTokens, ParseList, SuppliesOne, Supplies;
    SuppliesRest(values, n, cs);
    ListTokensNext(cs, n, sep, ts);
    if |cs| == 1 {
      ParseStep(cs[0], n, ts, values, sep);
      assert cs == [cs[0]];
    } else {
      ParseOfList(cs[1..], n + 1, ts, values, sep);
      ParseStep(cs[0], n, ListTokens(cs[1..], n + 1, sep) + ts, values, sep);
      assert cs == [cs[0]] + cs[1..];
    }
  }

  // ---------------------------------------------------------------- building a list

  function Values(cs: seq<Clause>): (vs: seq<Value>)
    ensures |vs| == |cs|
  {
    if cs == [] then [] else Values(cs[..|cs| - 1]) + [cs[|cs| - 1].value]
  }

  lemma {:induction false} ValuesAre(cs: seq<Clause>, i: nat)
    requires i < |cs|
    ensures Values(cs)[i] == cs[i].value
  {
    if i < |cs| - 1 {
      ValuesAre(cs[..|cs| - 1], i);
    }
  }

  /** The values of the clauses, followed by anything, supply the clauses. */
  lemma ValuesSupply(cs: seq<Clause>, more: seq<Value>)
    ensures Supplies(Values(cs) + more, 1, cs)
  {
    forall i | 0 <= i < |cs| ensures SuppliesOne(Values(cs) + more, 1 + i, cs[i].value) {
      ValuesAre(cs, i);
    }
  }

  lemma {:induction false} TextsSnoc(cs: seq<Clause>, c: Clause, n: nat)
    ensures ClauseTexts(cs + [c], n) == ClauseTexts(cs, n) + [ClauseText(c, n + |cs|)]
    decreases |cs|
  {
    hide ClauseText;
    if cs == [] {
      assert cs + [c] == [c] && [c][1..] == [];
    } else {
      assert (cs + [c])[1..] == cs[1..] + [c];
      TextsSnoc(cs[1..], c, n + 1);
    }
  }

  /** The state of a query builder: the clause texts, their values and the next placeholder number. */
  datatype Builder = Builder(texts: seq<string>, values: seq<Value>, paramIndex: nat)

  predicate Built(b: Builder, cs: seq<Clause>) {
    b.texts == ClauseTexts(cs, 1) && b.values == Values(cs) && b.paramIndex == |cs| + 1
  }

  method Start() returns (b: Builder)
    ensures Built(b, [])
  {
    b := Builder([], [], 1);
  }

  /** A clause for an optional field: its text and value are pushed if the field is given. */
  function Optional(column: string, op: string, value: Option<Value>): seq<Clause> {
    if value.Some? then [Clause(column, op, value.value)] else []
  }

  method Push(b: Builder, column: string, op: string, value: Option<Value>, ghost cs: seq<Clause>) returns (r: Builder)
    requires Built(b, cs) && (value.Some? ==> !Literal(value.value))
    ensures Built(r, cs + Optional(column, op, value))
  {
    hide ClauseTexts, Placeholder;
    r := b;
    if value.Some? {
      ghost var c := Clause(column, op, value.value);
      TextsSnoc(cs, c, 1);
      assert (cs + [c])[..|cs|] == cs;
      var text := column + " " + op + " " + Placeholder(b.paramIndex);
      r := Builder(b.texts + [text], b.values + [value.value], b.paramIndex + 1);
    } else {
      assert cs + [] == cs;
    }
  }
}

// The text of an SQL statement: how it falls into tokens, and what its numbered placeholders stand for.

module SqlText {
  import opened Text
  import Windows

  /** A bound parameter or a column value; NOW() and EXCLUDED.column are values of the statement itself. */
  datatype Value =
    | Null | Bool(b: bool) | Str(s: string) | Time(t: int) | Num(n: int) | Real(r: Windows.Num)
    | Now | Excluded(column: string)

  predicate IsPunct(c: char) {
    c == ',' || c == '(' || c == ')'
  }

  predicate IsBreak(c: char) {
    c == ' ' || IsPunct(c)
  }

  /** A token: not empty, and without blanks or punctuation. */
  predicate Word(w: string) {
    w != "" && forall i :: 0 <= i < |w| ==> !IsBreak(w[i])
  }

  predicate AtBreak(s: string) {
    s == "" || IsBreak(s[0])
  }

  function WordEnd(s: string): (k: nat)
    ensures k <= |s| && AtBreak(s[k..]) && forall i :: 0 <= i < k ==> !IsBreak(s[i])
  {
    if s == "" || IsBreak(s[0]) then 0 else 1 + WordEnd(s[1..])
  }

  /** The tokens of a text; each punctuation character is one. */
  function Lex(s: string): seq<string>
    decreases |s|
  {
    if s == "" then []
    else if s[0] == ' ' then Lex(s[1..])
    else if IsPunct(s[0]) then [[s[0]]] + Lex(s[1..])
    else [s[..WordEnd(s)]] + Lex(s[WordEnd(s)..])
  }

  lemma {:induction false} WordEndOf(w: string, rest: string)
    requires (forall i :: 0 <= i < |w| ==> !IsBreak(w[i])) && AtBreak(rest)
    ensures WordEnd(w + rest) == |w|
    decreases |w|
  {
    if w == "" {
      assert w + rest == rest;
    } else {
      assert (w + rest)[1..] == w[1..] + rest;
      WordEndOf(w[1..], rest);
    }
  }

  lemma LexWord(w: string, rest: string)
    requires Word(w) && AtBreak(rest)
    ensures Lex(w + rest) == [w] + Lex(rest)
  {
    WordEndOf(w, rest);
    assert (w + rest)[0] == w[0];
    assert (w + rest)[..|w|] == w && (w + rest)[|w|..] == rest;
  }

  lemma LexBlank(rest: string)
    ensures Lex(" " + rest) == Lex(rest)
  {
    assert (" " + rest)[1..] == rest;
  }

  lemma LexPunct(c: char, rest: string)
    requires IsPunct(c)
    ensures Lex([c] + rest) == [[c]] + Lex(rest)
  {
    assert ([c] + rest)[1..] == rest;
  }

  lemma LexNothing()
    ensures Lex("") == []
  {
  }

  /** Words, each followed by a blank. */
  function Spaced(ws: seq<string>): string {
    if ws == [] then "" else ws[0] + " " + Spaced(ws[1..])
  }

  lemma LexSpacedWord(w: string, rest: string)
    requires Word(w)
    ensures Lex(w + " " + rest) == [w] + Lex(rest)
  {
    hide Lex, Word;
    assert w + " " + rest == w + (" " + rest);
    LexWord(w, " " + rest);
    LexBlank(rest);
  }

  lemma {:induction false} LexSpaced(ws: seq<string>, rest: string)
    requires forall i :: 0 <= i < |ws| ==> Word(ws[i])
    ensures Lex(Spaced(ws) + rest) == ws + Lex(rest)
    decreases |ws|
  {
    hide Lex, Word;
    if ws == [] {
      assert Spaced(ws) + rest == rest;
    } else {
      var tail := Spaced(ws[1..]) + rest;
      assert Spaced(ws) + rest == ws[0] + " " + tail;
      LexSpacedWord(ws[0], tail);
      LexSpaced(ws[1..], rest);
      assert ws == [ws[0]] + ws[1..];
    }
  }

  // ---------------------------------------------------------------- placeholders

  /** `$${n}` */
  function Placeholder(n: nat): string {
    "$" + Decimal(n)
  }

  /** The parameter a token refers to, if it is a placeholder within the parameter list. */
  function Bound(token: string, values: seq<Value>): Option<Value> {
    if |token| < 2 || token[0] != '$' || exists i :: 1 <= i < |token| && !IsDigit(token[i]) then None
    else
      var n := ParseDecimal(token[1..]);
      if 1 <= n <= |values| then Some(values[n - 1]) else None
  }

  lemma PlaceholderWord(n: nat)
    ensures Word(Placeholder(n))
  {
    hide Decimal;
    var d := Decimal(n);
    forall i | 0 <= i < |Placeholder(n)| ensures !IsBreak(Placeholder(n)[i]) {
      if i > 0 {
        assert Placeholder(n)[i] == d[i - 1];
        assert IsDigit(d[i - 1]);
      }
    }
  }

  /** Placeholder n stands for the n-th parameter, counted from 1. */
  lemma PlaceholderBound(n: nat, values: seq<Value>)
    requires 1 <= n <= |values|
    ensures Bound(Placeholder(n), values) == Some(values[n - 1])
  {
    hide Decimal, ParseDecimal;
    var p := Placeholder(n);
    assert p[1..] == Decimal(n);
    forall i | 1 <= i < |p| ensures IsDigit(p[i]) {
      assert p[i] == Decimal(n)[i - 1];
    }
    ParseOfDecimal(n);
  }
}

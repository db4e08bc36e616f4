// Strings the way the services build them: String(n), padStart, join, split, and the `<` of
// JavaScript on strings of equal code-unit kind.

module Text {

  datatype Option<+T> = None | Some(value: T)

  function Pow10(w: nat): (p: nat)
    ensures p > 0
  {
    if w == 0 then 1 else 10 * Pow10(w - 1)
  }

  function Digit(d: nat): char
    requires d < 10
  {
    (48 + d) as char
  }

  predicate IsDigit(c: char) {
    '0' <= c <= '9'
  }

  function DigitValue(c: char): (d: nat)
    requires IsDigit(c)
    ensures d < 10 && Digit(d) == c
  {
    c as int - '0' as int
  }

  /** String(n) for a natural number. */
  function Decimal(n: nat): (s: string)
    ensures |s| > 0 && forall i :: 0 <= i < |s| ==> IsDigit(s[i])
  {
    if n < 10 then [Digit(n)] else Decimal(n / 10) + [Digit(n % 10)]
  }

  /** The number a digit string denotes. */
  function ParseDecimal(s: string): nat
    requires forall i :: 0 <= i < |s| ==> IsDigit(s[i])
  {
    if s == "" then 0 else 10 * ParseDecimal(s[..|s| - 1]) + DigitValue(s[|s| - 1])
  }

  lemma {:induction false} ParseOfDecimal(n: nat)
    ensures ParseDecimal(Decimal(n)) == n
  {
    if n >= 10 {
      ParseOfDecimal(n / 10);
      var s := Decimal(n);
      assert s[..|s| - 1] == Decimal(n / 10);
    } else {
      assert [Digit(n)][..0] == "";
    }
  }

  /** n written with exactly w digits. */
  function Pad(n: nat, w: nat): (s: string)
    ensures |s| == w
    ensures forall i :: 0 <= i < |s| ==> IsDigit(s[i])
  {
    if w == 0 then "" else Pad(n / 10, w - 1) + [Digit(n % 10)]
  }

  lemma {:induction false} ParseOfPad(n: nat, w: nat)
    requires n < Pow10(w)
    ensures ParseDecimal(Pad(n, w)) == n
  {
    if w > 0 {
      ParseOfPad(n / 10, w - 1);
      var s := Pad(n, w);
      assert s[..|s| - 1] == Pad(n / 10, w - 1);
    }
  }

  /** s.padStart(w, '0') */
  function PadStart(s: string, w: nat): string
    decreases w - |s|
  {
    if |s| >= w then s else PadStart("0" + s, w)
  }

  lemma {:induction false} PadStartPrefix(s: string, c: char, w: nat)
    ensures PadStart(s + [c], w + 1) == PadStart(s, w) + [c]
    decreases w - |s|
  {
    if |s| < w {
      PadStartPrefix("0" + s, c, w);
      assert "0" + (s + [c]) == ("0" + s) + [c];
    }
  }

  lemma {:induction false} PadStartZeros(w: nat)
    ensures PadStart("0", w + 1) == Pad(0, w + 1)
  {
    if w > 0 {
      PadStartZeros(w - 1);
      PadStartPrefix("0", '0', w);
      assert "0" + "0" == "0" + ['0'];
    } else {
      assert Pad(0, 1) == Pad(0, 0) + [Digit(0)];
    }
  }

  /** String(n).padStart(w, '0') has exactly w digits when n fits. */
  lemma {:induction false} PadStartIsPad(n: nat, w: nat)
    requires n < Pow10(w + 1)
    ensures PadStart(Decimal(n), w + 1) == Pad(n, w + 1)
  {
    if n >= 10 {
      if w > 0 {
        PadStartIsPad(n / 10, w - 1);
        PadStartPrefix(Decimal(n / 10), Digit(n % 10), w);
      }
    } else {
      if w == 0 {
        assert Pad(n, 1) == Pad(n / 10, 0) + [Digit(n % 10)];
      } else {
        PadStartZeros(w - 1);
        PadStartPrefix("0", Digit(n), w);
        assert "0" + Decimal(n) == "0" + [Digit(n)];
      }
    }
  }

  /** JavaScript's `a < b` on strings. */
  predicate LexLess(a: string, b: string) {
    if b == "" then false
    else if a == "" then true
    else if a[0] != b[0] then a[0] < b[0]
    else LexLess(a[1..], b[1..])
  }

  lemma {:induction false} LexTrichotomy(a: string, b: string)
    ensures !(LexLess(a, b) && LexLess(b, a))
    ensures LexLess(a, b) || LexLess(b, a) || a == b
    ensures !LexLess(a, a)
  {
    if a != "" {
      if b != "" && a[0] == b[0] {
        LexTrichotomy(a[1..], b[1..]);
        assert a == [a[0]] + a[1..] && b == [b[0]] + b[1..];
      } else {
        LexTrichotomy(a[1..], a[1..]);
      }
    }
  }

  /** Equal-length heads decide first, tails break ties. */
  lemma {:induction false} LexConcat(a: string, b: string, x: string, y: string)
    requires |a| == |b|
    ensures LexLess(a + x, b + y) <==> LexLess(a, b) || (a == b && LexLess(x, y))
  {
    if a == "" {
      assert a + x == x && b + y == y;
    } else {
      assert (a + x)[1..] == a[1..] + x && (b + y)[1..] == b[1..] + y;
      LexConcat(a[1..], b[1..], x, y);
      assert a == [a[0]] + a[1..] && b == [b[0]] + b[1..];
    }
  }

  /** Zero padding makes string order numeric order. */
  lemma {:induction false} PadOrder(m: nat, n: nat, w: nat)
    requires m < Pow10(w) && n < Pow10(w)
    ensures LexLess(Pad(m, w), Pad(n, w)) <==> m < n
    ensures Pad(m, w) == Pad(n, w) <==> m == n
  {
    if w > 0 {
      PadOrder(m / 10, n / 10, w - 1);
      LexConcat(Pad(m / 10, w - 1), Pad(n / 10, w - 1), [Digit(m % 10)], [Digit(n % 10)]);
      var p, q := Pad(m, w), Pad(n, w);
      assert p[..w - 1] == Pad(m / 10, w - 1) && q[..w - 1] == Pad(n / 10, w - 1);
      assert p[w - 1] == Digit(m % 10) && q[w - 1] == Digit(n % 10);
      assert LexLess([Digit(m % 10)], [Digit(n % 10)]) <==> m % 10 < n % 10;
    }
  }

  /** s.split(c) */
  function Split(s: string, c: char): (r: seq<string>)
    ensures |r| > 0
  {
    if s == "" then [""]
    else
      var r := Split(s[1..], c);
      if s[0] == c then [""] + r else [[s[0]] + r[0]] + r[1..]
  }

  /** parts.join(sep) */
  function Join(parts: seq<string>, sep: string): string {
    if |parts| == 0 then ""
    else if |parts| == 1 then parts[0]
    else parts[0] + sep + Join(parts[1..], sep)
  }

  lemma SplitFirst(x: char, s: string, c: char)
    ensures Split([x] + s, c) ==
      if x == c then [""] + Split(s, c) else [[x] + Split(s, c)[0]] + Split(s, c)[1..]
  {
    assert ([x] + s)[1..] == s;
  }

  lemma SplitNothing(c: char)
    ensures Split("", c) == [""]
  {
  }

  lemma {:induction false} SplitAppend(a: string, c: char, b: string)
    ensures Split(a + [c] + b, c) == Split(a, c) + Split(b, c)
  {
    hide Split;
    if a == "" {
      assert a + [c] + b == [c] + b;
      SplitFirst(c, b, c);
      SplitNothing(c);
    } else {
      var tail := a[1..] + [c] + b;
      assert a == [a[0]] + a[1..] && a + [c] + b == [a[0]] + tail;
      SplitAppend(a[1..], c, b);
      SplitFirst(a[0], a[1..], c);
      SplitFirst(a[0], tail, c);
      hide *;
      HeadStays(a[0], Split(a[1..], c), Split(b, c));
    }
  }

  lemma HeadStays(x: char, r: seq<string>, q: seq<string>)
    requires r != []
    ensures [[x] + (r + q)[0]] + (r + q)[1..] == [[x] + r[0]] + r[1..] + q
    ensures r + q != [] && [r[0]] + r[1..] + q == r + q
  {
    assert (r + q)[1..] == r[1..] + q;
  }

  lemma {:induction false} SplitWord(a: string, c: char)
    requires c !in a
    ensures Split(a, c) == [a]
  {
    if a != "" {
      SplitWord(a[1..], c);
      assert [a[0]] + a[1..] == a;
    }
  }

  lemma {:induction false} SplitJoin(ws: seq<string>, c: char)
    requires |ws| > 0 && forall i :: 0 <= i < |ws| ==> c !in ws[i]
    ensures Split(Join(ws, [c]), c) == ws
  {
    SplitWord(ws[0], c);
    if |ws| > 1 {
      SplitJoin(ws[1..], c);
      SplitAppend(ws[0], c, Join(ws[1..], [c]));
      assert ws == [ws[0]] + ws[1..];
    }
  }
}

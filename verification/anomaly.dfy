// AnomalyDetectorService: a sample gate, then a guarded exponential moving average per meter.

module Anomaly {
  import opened Text

  /** change above `spike` or below -`drop`, as fractions of the baseline, is an anomaly */
  datatype Config = Config(spike: real, drop: real, minSampleSize: int)

  predicate Sensible(c: Config) {
    c.spike >= 0.0 && 0.0 <= c.drop < 1.0
  }

  datatype Severity = Low | Medium | High

  datatype Verdict = Quiet | Spike(severity: Severity) | Drop(severity: Severity) | Outage

  /** The baseline the comparison uses: zero is replaced. */
  function Effective(b: real): (r: real)
    ensures r != 0.0
  {
    if b == 0.0 then 0.1 else b
  }

  function Judge(c: Config, b: real, p: real): Verdict
    requires b != 0.0
  {
    var change := (p - b) / b;
    if change > c.spike then Spike(if change > 2.0 then High else Medium)
    else if change < -c.drop then Drop(if change < -0.8 then Medium else Low)
    else if p < 0.1 && b > 1.0 then Outage
    else Quiet
  }

  /** The cached baseline after a reading of p: moved a fifth of the way on a quiet reading, else kept. */
  function Moved(c: Config, b: real, p: real): real {
    if Judge(c, Effective(b), p).Quiet? then Effective(b) * 0.8 + p * 0.2 else b
  }

  function Baselines(c: Config, b: real, ps: seq<real>): real {
    if ps == [] then b else Moved(c, Baselines(c, b, ps[..|ps| - 1]), ps[|ps| - 1])
  }

  // ---------------------------------------------------------------- what the thresholds mean

  /** The thresholds as multiples of the baseline. */
  lemma Thresholds(c: Config, b: real, p: real)
    requires b > 0.0
    ensures Judge(c, b, p).Spike? <==> p > (1.0 + c.spike) * b
    ensures Judge(c, b, p).Drop? <==> p < (1.0 - c.drop) * b && p <= (1.0 + c.spike) * b
  {
    var change := (p - b) / b;
    assert change * b == p - b;
    assert (1.0 + c.spike) * b == b + c.spike * b && (1.0 - c.drop) * b == b - c.drop * b;
  }

  /** Each verdict and severity, in multiples of the baseline: a spike is high above three times it, a drop medium
      below a fifth of it. */
  lemma Verdicts(c: Config, b: real, p: real)
    requires b > 0.0
    ensures var spike, drop := p > (1.0 + c.spike) * b, p < (1.0 - c.drop) * b;
      && (Judge(c, b, p) == Spike(High) <==> spike && p > 3.0 * b)
      && (Judge(c, b, p) == Spike(Medium) <==> spike && p <= 3.0 * b)
      && (Judge(c, b, p) == Drop(Medium) <==> !spike && drop && p < 0.2 * b)
      && (Judge(c, b, p) == Drop(Low) <==> !spike && drop && p >= 0.2 * b)
      && (Judge(c, b, p) == Outage <==> !spike && !drop && p < 0.1 && b > 1.0)
      && (Judge(c, b, p) == Quiet <==> !spike && !drop && (p >= 0.1 || b <= 1.0))
  {
    ChangeAgainst(b, p, c.spike);
    ChangeAgainst(b, p, -c.drop);
    ChangeAgainst(b, p, 2.0);
    ChangeAgainst(b, p, -0.8);
    assert (1.0 + -c.drop) * b == (1.0 - c.drop) * b;
    assert (1.0 + 2.0) * b == 3.0 * b && (1.0 + -0.8) * b == 0.2 * b;
  }

  /** A change above or below x is a power above or below 1 + x times the baseline. */
  lemma ChangeAgainst(b: real, p: real, x: real)
    requires b > 0.0
    ensures (p - b) / b > x <==> p > (1.0 + x) * b
    ensures (p - b) / b < x <==> p < (1.0 + x) * b
  {
    var change := (p - b) / b;
    assert (change - x) * b == p - (1.0 + x) * b;
    assert change > x ==> (change - x) * b > 0.0;
    assert change < x ==> (x - change) * b > 0.0;
  }

  lemma Product(x: real, y: real)
    requires x >= 0.0 && y >= 0.0
    ensures x * y >= 0.0
  {
  }

  /** The near-zero outage branch can be reached exactly when the drop threshold exceeds 0.9; with the
      0.5 in use it never is. */
  lemma OutageReachable(c: Config)
    requires Sensible(c)
    ensures (exists b, p :: b > 0.0 && Judge(c, b, p).Outage?) <==> c.drop > 0.9
  {
    if c.drop > 0.9 {
      var keep := 1.0 - c.drop;
      var b := 0.5 + 0.05 / keep;
      var p := 0.5 * keep + 0.05;
      assert keep * b == p by { assert keep * (0.05 / keep) == 0.05; }
      Thresholds(c, b, p);
      assert p <= (1.0 + c.spike) * b by {
        Product(c.spike + c.drop, b);
        assert (1.0 + c.spike) * b - keep * b == (c.spike + c.drop) * b;
      }
      assert Judge(c, b, p).Outage?;
    } else {
      forall b, p | b > 0.0 ensures !Judge(c, b, p).Outage? {
        Thresholds(c, b, p);
        if b > 1.0 {
          Product(0.9 - c.drop, b);
          assert (1.0 - c.drop) * b == 0.1 * b + (0.9 - c.drop) * b;
        }
      }
    }
  }

  // ---------------------------------------------------------------- envelope

  function Power(x: real, n: nat): real {
    if n == 0 then 1.0 else x * Power(x, n - 1)
  }

  lemma MovedWithin(c: Config, b: real, p: real)
    requires Sensible(c) && b > 0.0
    ensures (1.0 - 0.2 * c.drop) * b <= Moved(c, b, p) <= (1.0 + 0.2 * c.spike) * b
    ensures Moved(c, b, p) > 0.0
  {
    Product(c.drop, b);
    Product(c.spike, b);
    Product(1.0 - c.drop, b);
    assert (1.0 - 0.2 * c.drop) * b == b - 0.2 * (c.drop * b);
    assert (1.0 + 0.2 * c.spike) * b == b + 0.2 * (c.spike * b);
    assert (1.0 - c.drop) * b == b - c.drop * b && (1.0 + c.spike) * b == b + c.spike * b;
    if Judge(c, b, p).Quiet? {
    }
  }

  lemma Chain(f: real, lo: real, x: real)
    requires f >= 0.0 && lo <= x
    ensures f * lo <= f * x
  {
    Product(f, x - lo);
    assert f * (x - lo) == f * x - f * lo;
  }

  lemma PowerStep(f: real, n: nat, b: real)
    ensures Power(f, n + 1) * b == f * (Power(f, n) * b)
  {
    var q := Power(f, n);
    assert (f * q) * b == f * (q * b);
  }

  /** After any n readings the baseline lies within the geometric envelope of its starting value: with
      the thresholds in use, between 0.9^n and 1.2^n times it. */
  lemma {:induction false} Envelope(c: Config, b: real, ps: seq<real>)
    requires Sensible(c) && b > 0.0
    ensures Power(1.0 - 0.2 * c.drop, |ps|) * b <= Baselines(c, b, ps) <= Power(1.0 + 0.2 * c.spike, |ps|) * b
    ensures Baselines(c, b, ps) > 0.0
  {
    hide Moved, Power;
    if ps == [] {
      PowerZero(b);
    } else {
      var init, p := ps[..|ps| - 1], ps[|ps| - 1];
      Envelope(c, b, init);
      var x := Baselines(c, b, init);
      var down, up := 1.0 - 0.2 * c.drop, 1.0 + 0.2 * c.spike;
      MovedWithin(c, x, p);
      Chain(down, Power(down, |init|) * b, x);
      Chain(up, x, Power(up, |init|) * b);
      PowerStep(down, |init|, b);
      PowerStep(up, |init|, b);
    }
  }

  lemma PowerZero(b: real)
    ensures forall f :: Power(f, 0) * b == b
  {
  }

  /** The baseline stays inside the convex hull of its starting value and the accepted readings. */
  lemma {:induction false} Hull(c: Config, b: real, ps: seq<real>, lo: real, hi: real)
    requires Sensible(c) && b > 0.0 && lo <= b <= hi
    requires forall i :: 0 <= i < |ps| && Judge(c, Effective(Baselines(c, b, ps[..i])), ps[i]).Quiet? ==>
      lo <= ps[i] <= hi
    ensures lo <= Baselines(c, b, ps) <= hi
  {
    if ps != [] {
      hide Judge;
      var init, p := ps[..|ps| - 1], ps[|ps| - 1];
      forall i | 0 <= i < |init| && Judge(c, Effective(Baselines(c, b, init[..i])), init[i]).Quiet?
        ensures lo <= init[i] <= hi
      {
        assert init[..i] == ps[..i] && init[i] == ps[i];
      }
      Hull(c, b, init, lo, hi);
      Envelope(c, b, init);
    }
  }

  // ---------------------------------------------------------------- constant levels

  function Repeat(p: real, n: nat): (ps: seq<real>)
    ensures |ps| == n && forall i :: 0 <= i < n ==> ps[i] == p
  {
    seq(n, _ => p)
  }

  lemma RepeatNext(p: real, n: nat)
    requires n > 0
    ensures Repeat(p, n)[..n - 1] == Repeat(p, n - 1) && Repeat(p, n)[n - 1] == p
  {
  }

  /** The levels a baseline b > 0 tolerates; the outage clause is void when the drop threshold is at most 0.9. */
  predicate InBand(c: Config, b: real, p: real) {
    (1.0 - c.drop) * b <= p <= (1.0 + c.spike) * b && !(p < 0.1 && b > 1.0)
  }

  lemma QuietExact(c: Config, b: real, p: real)
    requires Sensible(c) && b > 0.0
    ensures Effective(b) == b && (Judge(c, b, p).Quiet? <==> InBand(c, b, p))
    ensures c.drop <= 0.9 ==> (InBand(c, b, p) <==> (1.0 - c.drop) * b <= p <= (1.0 + c.spike) * b)
  {
    Thresholds(c, b, p);
    OutageReachable(c);
  }

  predicate Between(x: real, b: real, p: real) {
    b <= x <= p || p <= x <= b
  }

  lemma PositiveProduct(f: real, b: real)
    requires f > 0.0 && b > 0.0
    ensures f * b > 0.0
  {
  }

  /** A level is within the thresholds of itself. */
  lemma OwnBand(c: Config, x: real)
    requires Sensible(c) && x > 0.0
    ensures (1.0 - c.drop) * x <= x <= (1.0 + c.spike) * x
  {
    Chain(x, 1.0 - c.drop, 1.0);
    Chain(x, 1.0, 1.0 + c.spike);
    assert (1.0 - c.drop) * x == x * (1.0 - c.drop) && (1.0 + c.spike) * x == x * (1.0 + c.spike);
  }

  lemma ShareKept(f: real, b: real, x: real, p: real)
    requires f >= 0.0 && f * b <= p && x <= b
    ensures f * x <= p
  {
    Chain(f, x, b);
  }

  lemma ReachKept(f: real, b: real, x: real, p: real)
    requires f >= 0.0 && p <= f * b && b <= x
    ensures p <= f * x
  {
    Chain(f, b, x);
  }

  lemma StaysInBand(c: Config, b: real, x: real, p: real)
    requires Sensible(c) && b > 0.0 && InBand(c, b, p) && Between(x, b, p)
    ensures x > 0.0 && InBand(c, x, p)
  {
    PositiveProduct(1.0 - c.drop, b);
    OwnBand(c, x);
    if b <= x {
      ReachKept(1.0 + c.spike, b, x, p);
    } else {
      ShareKept(1.0 - c.drop, b, x, p);
    }
  }

  lemma {:induction false} PowerBelowOne(n: nat)
    ensures 0.0 <= Power(0.8, n) <= if n == 0 then 1.0 else 0.8
  {
    if n > 0 {
      PowerBelowOne(n - 1);
    }
  }

  lemma OneMore(c: Config, b: real, p: real, n: nat)
    ensures Baselines(c, b, Repeat(p, n)) == if n == 0 then b else Moved(c, Baselines(c, b, Repeat(p, n - 1)), p)
  {
    hide Moved;
    if n == 0 {
      assert Repeat(p, 0) == [];
    } else {
      RepeatNext(p, n);
    }
  }

  lemma GapWithin(b: real, p: real, x: real, k: real)
    requires 0.0 <= k <= 1.0 && p - x == k * (p - b)
    ensures Between(x, b, p)
  {
    var gap := if b <= p then p - b else b - p;
    Product(k, gap);
    Product(1.0 - k, gap);
    assert x - b == (1.0 - k) * (p - b);
  }

  lemma QuietStep(c: Config, b: real, x: real, p: real)
    requires Sensible(c) && b > 0.0 && InBand(c, b, p) && Between(x, b, p)
    ensures x > 0.0 && Judge(c, Effective(x), p).Quiet? && p - Moved(c, x, p) == 0.8 * (p - x)
  {
    StaysInBand(c, b, x, p);
    QuietExact(c, x, p);
    hide Judge, InBand;
  }

  lemma PowerTimes(n: nat, gap: real)
    requires n > 0
    ensures 0.8 * (Power(0.8, n - 1) * gap) == Power(0.8, n) * gap
  {
    var k := Power(0.8, n - 1);
    assert Power(0.8, n) == 0.8 * k;
    assert 0.8 * (k * gap) == 0.8 * k * gap;
  }

  lemma {:induction false} BandFollowed(c: Config, b: real, p: real, n: nat)
    requires Sensible(c) && b > 0.0 && InBand(c, b, p)
    ensures var x := Baselines(c, b, Repeat(p, n));
      p - x == Power(0.8, n) * (p - b) && x > 0.0 && Judge(c, Effective(x), p).Quiet?
  {
    hide *;
    OneMore(c, b, p, n);
    if n == 0 {
      PowerZero(p - b);
    } else {
      BandFollowed(c, b, p, n - 1);
      var x := Baselines(c, b, Repeat(p, n - 1));
      PowerBelowOne(n - 1);
      GapWithin(b, p, x, Power(0.8, n - 1));
      QuietStep(c, b, x, p);
      PowerTimes(n, p - b);
    }
    PowerBelowOne(n);
    GapWithin(b, p, Baselines(c, b, Repeat(p, n)), Power(0.8, n));
    QuietStep(c, b, Baselines(c, b, Repeat(p, n)), p);
  }

  lemma {:induction false} Frozen(c: Config, b: real, p: real, n: nat)
    requires !Judge(c, Effective(b), p).Quiet?
    ensures Baselines(c, b, Repeat(p, n)) == b
  {
    hide Judge;
    OneMore(c, b, p, n);
    if n > 0 {
      Frozen(c, b, p, n - 1);
    }
  }

  /** A constant level p is learned, the gap to it shrinking by the factor 0.8 at every reading and none alerting, if
      and only if it lies in the band of the baseline it starts from; otherwise the baseline stays where it was for
      good and every reading alerts. With a drop threshold up to 0.9 the band is [(1 - drop) b, (1 + spike) b]. */
  lemma LevelExact(c: Config, b: real, p: real, n: nat)
    requires Sensible(c) && b > 0.0 && n > 0
    ensures p - Baselines(c, b, Repeat(p, n)) == Power(0.8, n) * (p - b) <==> InBand(c, b, p)
    ensures var x := Baselines(c, b, Repeat(p, n));
      if InBand(c, b, p) then Judge(c, Effective(x), p).Quiet? else x == b && !Judge(c, Effective(x), p).Quiet?
    ensures c.drop <= 0.9 ==> (InBand(c, b, p) <==> (1.0 - c.drop) * b <= p <= (1.0 + c.spike) * b)
  {
    hide *;
    QuietExact(c, b, p);
    if InBand(c, b, p) {
      BandFollowed(c, b, p, n);
    } else {
      Frozen(c, b, p, n);
      PowerBelowOne(n);
      BaselineInBand(c, b);
      if p - b == Power(0.8, n) * (p - b) {
        ShrunkGap(Power(0.8, n), p - b);
      }
    }
  }

  lemma BaselineInBand(c: Config, b: real)
    requires Sensible(c) && b > 0.0
    ensures InBand(c, b, b)
  {
    Product(c.drop, b);
    Product(c.spike, b);
    assert (1.0 - c.drop) * b == b - c.drop * b && (1.0 + c.spike) * b == b + c.spike * b;
  }

  lemma ShrunkGap(k: real, gap: real)
    requires k < 1.0 && gap == k * gap
    ensures gap == 0.0
  {
    assert (1.0 - k) * gap == 0.0;
  }

  /** A zero baseline moves, exactly as one of 0.1 would, if and only if the level lies in the band around 0.1; for all
      other levels, zero included, it stays 0 for good and every reading alerts. */
  lemma {:induction false} ZeroBaselineExact(c: Config, p: real, n: nat)
    requires Sensible(c) && n > 0
    ensures Baselines(c, 0.0, Repeat(p, n)) != 0.0 <==> (1.0 - c.drop) * 0.1 <= p <= (1.0 + c.spike) * 0.1
    ensures var x := Baselines(c, 0.0, Repeat(p, n));
      if x == 0.0 then !Judge(c, Effective(x), p).Quiet? else x == Baselines(c, 0.1, Repeat(p, n))
  {
    QuietExact(c, 0.1, p);
    hide Judge, Baselines, Power, Repeat;
    if InBand(c, 0.1, p) {
      OneMore(c, 0.0, p, n);
      OneMore(c, 0.1, p, n);
      BandFollowed(c, 0.1, p, n);
      if n > 1 {
        ZeroBaselineExact(c, p, n - 1);
      } else {
        OneMore(c, 0.0, p, 0);
        OneMore(c, 0.1, p, 0);
      }
    } else {
      Frozen(c, 0.0, p, n);
    }
  }

  // ---------------------------------------------------------------- the service

  class AnomalyDetectorService {
    var baselineCache: map<string, real>
    var readingCounts: map<string, int>
    const config: Config

    constructor (config: Config)
      ensures baselineCache == map[] && readingCounts == map[] && this.config == config
    {
      this.config := config;
      baselineCache, readingCounts := map[], map[];
    }

    function Count(meterId: string): int
      reads this
    {
      if meterId in readingCounts then readingCounts[meterId] else 0
    }

    /** checkReading; `stored` is the meter's last average in the database. */
    method CheckReading(meterId: string, p: real, stored: Option<real>) returns (verdict: Verdict)
      modifies this
      ensures meterId in readingCounts && readingCounts == old(readingCounts)[meterId := readingCounts[meterId]]
      ensures readingCounts[meterId] == if meterId in old(readingCounts) then old(readingCounts)[meterId] + 1 else 1
      ensures readingCounts[meterId] < config.minSampleSize ==>
        verdict == Quiet && baselineCache == old(baselineCache)
      ensures readingCounts[meterId] >= config.minSampleSize ==>
        if meterId !in old(baselineCache) && stored.None? then
          verdict == Quiet && baselineCache == old(baselineCache)[meterId := p]
        else
          var b := if meterId in old(baselineCache) then old(baselineCache)[meterId] else stored.value;
          verdict == Judge(config, Effective(b), p) &&
          baselineCache == old(baselineCache)[meterId := Moved(config, b, p)]
    {
      var count := Count(meterId) + 1;
      readingCounts := readingCounts[meterId := count];
      if count < config.minSampleSize {
        return Quiet;
      }
      if meterId !in baselineCache {
        if stored.None? {
          baselineCache := baselineCache[meterId := p];
          return Quiet;
        }
        baselineCache := baselineCache[meterId := stored.value];
      }
      var baseline := baselineCache[meterId];
      if baseline == 0.0 {
        baseline := 0.1;
      }
      var change := (p - baseline) / baseline;
      if change > config.spike {
        return Spike(if change > 2.0 then High else Medium);
      }
      if change < -config.drop {
        return Drop(if change < -0.8 then Medium else Low);
      }
      if p < 0.1 && baseline > 1.0 {
        return Outage;
      }
      baselineCache := baselineCache[meterId := baseline * 0.8 + p * 0.2];
      return Quiet;
    }
  }
}

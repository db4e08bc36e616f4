// The per-meter windows of the stream processor as folds of readings, for any bucket function.

module Windows {
  import Arithmetic
  import opened Text

  // ---------------------------------------------------------------- numbers

  /** A JavaScript number where infinities or NaN can appear; rounding is not modelled. */
  datatype Num = Fin(v: real) | PosInf | NegInf | NaN

  function Add(a: Num, b: Num): Num {
    if a.Fin? && b.Fin? then Fin(a.v + b.v)
    else if a.NaN? || b.NaN? || (a.PosInf? && b.NegInf?) || (a.NegInf? && b.PosInf?) then NaN
    else if a.PosInf? || b.PosInf? then PosInf
    else NegInf
  }

  /** x / y with y possibly zero. */
  function Quotient(x: real, y: real): Num {
    if y != 0.0 then Fin(x / y) else if x > 0.0 then PosInf else if x < 0.0 then NegInf else NaN
  }

  /** a / n for a positive count n. */
  function PerCount(a: Num, n: nat): Num
    requires n > 0
  {
    if a.Fin? then Fin(a.v / n as real) else a
  }

  function Min(a: Num, b: Num): Num {
    if a.Fin? && b.Fin? then (if a.v <= b.v then a else b) else if a.Fin? then a else b
  }

  function Max(x: real, y: real): real {
    if x >= y then x else y
  }

  // ---------------------------------------------------------------- readings

  /** timestamp is None when it does not parse as a date; an absent voltage or energy is None. */
  datatype Reading = Reading(meterId: string, region: string, timestamp: Option<int>,
                             powerKw: real, energyKwh: Option<real>, voltage: Option<real>)

  /** A bucket function: from an instant to the key of its window. */
  type BucketKey = int -> string

  predicate Lands(r: Reading, key: BucketKey, bucket: string, meter: string) {
    r.timestamp.Some? && r.meterId == meter && key(r.timestamp.value) == bucket
  }

  /** The readings of one meter in one bucket, in arrival order. */
  function Select(rs: seq<Reading>, key: BucketKey, bucket: string, meter: string): (sel: seq<Reading>)
    ensures |sel| <= |rs|
    ensures forall i :: 0 <= i < |sel| ==> sel[i] in rs && Lands(sel[i], key, bucket, meter)
  {
    if rs == [] then []
    else
      var init, last := rs[..|rs| - 1], rs[|rs| - 1];
      Select(init, key, bucket, meter) + if Lands(last, key, bucket, meter) then [last] else []
  }

  lemma SelectSnoc(rs: seq<Reading>, r: Reading, key: BucketKey, bucket: string, meter: string)
    ensures Select(rs + [r], key, bucket, meter) ==
            Select(rs, key, bucket, meter) + if Lands(r, key, bucket, meter) then [r] else []
  {
    assert (rs + [r])[..|rs|] == rs;
  }

  lemma {:induction false} SelectHas(rs: seq<Reading>, i: nat, key: BucketKey, bucket: string, meter: string)
    requires i < |rs| && Lands(rs[i], key, bucket, meter)
    ensures rs[i] in Select(rs, key, bucket, meter)
  {
    if i < |rs| - 1 {
      SelectHas(rs[..|rs| - 1], i, key, bucket, meter);
    }
  }

  // ---------------------------------------------------------------- statistics

  datatype Stats = Stats(powerSum: real, maxPower: real, minPower: Num, energySum: real, voltageSum: real,
                         voltageCount: int, currentSum: Num, currentCount: int, count: int)

  const EMPTY := Stats(0.0, 0.0, PosInf, 0.0, 0.0, 0, Fin(0.0), 0, 0)

  /** updateWindow: one reading's effect on a window. */
  function Update(s: Stats, r: Reading): Stats {
    var t := s.(
      powerSum := s.powerSum + r.powerKw,
      maxPower := Max(s.maxPower, r.powerKw),
      minPower := Min(s.minPower, Fin(r.powerKw)),
      energySum := s.energySum + if r.energyKwh.Some? then r.energyKwh.value else 0.0,
      count := s.count + 1);
    if r.voltage.None? then t
    else t.(
      voltageSum := s.voltageSum + r.voltage.value,
      voltageCount := s.voltageCount + 1,
      currentSum := Add(s.currentSum, Quotient(r.powerKw * 1000.0, r.voltage.value)),
      currentCount := s.currentCount + 1)
  }

  function Fold(rs: seq<Reading>): Stats {
    if rs == [] then EMPTY else Update(Fold(rs[..|rs| - 1]), rs[|rs| - 1])
  }

  /** Two windows as one. */
  function Merge(a: Stats, b: Stats): Stats {
    Stats(a.powerSum + b.powerSum, Max(a.maxPower, b.maxPower), Min(a.minPower, b.minPower),
          a.energySum + b.energySum, a.voltageSum + b.voltageSum, a.voltageCount + b.voltageCount,
          Add(a.currentSum, b.currentSum), a.currentCount + b.currentCount, a.count + b.count)
  }

  // The folds a window is meant to hold, each on its own.

  function Sum(xs: seq<real>): real {
    if xs == [] then 0.0 else Sum(xs[..|xs| - 1]) + xs[|xs| - 1]
  }

  function Powers(rs: seq<Reading>): (xs: seq<real>)
    ensures |xs| == |rs| && forall i :: 0 <= i < |rs| ==> xs[i] == rs[i].powerKw
  {
    seq(|rs|, i requires 0 <= i < |rs| => rs[i].powerKw)
  }

  function Voltages(rs: seq<Reading>): seq<real> {
    if rs == [] then []
    else Voltages(rs[..|rs| - 1]) + if rs[|rs| - 1].voltage.Some? then [rs[|rs| - 1].voltage.value] else []
  }

  function Energies(rs: seq<Reading>): seq<real> {
    seq(|rs|, i requires 0 <= i < |rs| => if rs[i].energyKwh.Some? then rs[i].energyKwh.value else 0.0)
  }

  /** x is the mean of xs, or 0 without any. */
  predicate MeanOf(x: real, xs: seq<real>) {
    if xs == [] then x == 0.0 else x * |xs| as real == Sum(xs)
  }

  /** x bounds xs, and is one of them or 0. */
  predicate GreatestOrZero(x: real, xs: seq<real>) {
    (x == 0.0 || x in xs) && forall i :: 0 <= i < |xs| ==> xs[i] <= x
  }

  predicate Least(x: real, xs: seq<real>) {
    x in xs && forall i :: 0 <= i < |xs| ==> x <= xs[i]
  }

  lemma {:induction false} SumAbove(xs: seq<real>, lo: real)
    requires forall i :: 0 <= i < |xs| ==> lo <= xs[i]
    ensures lo * |xs| as real <= Sum(xs)
  {
    if xs != [] {
      var init := xs[..|xs| - 1];
      assert forall i :: 0 <= i < |init| ==> init[i] == xs[i];
      SumAbove(init, lo);
      Arithmetic.ScaleNext(lo, |init|);
    }
  }

  lemma {:induction false} SumBelow(xs: seq<real>, hi: real)
    requires forall i :: 0 <= i < |xs| ==> xs[i] <= hi
    ensures Sum(xs) <= hi * |xs| as real
  {
    if xs != [] {
      var init := xs[..|xs| - 1];
      assert forall i :: 0 <= i < |init| ==> init[i] == xs[i];
      SumBelow(init, hi);
      Arithmetic.ScaleNext(hi, |init|);
    }
  }

  /** A mean lies between any bounds on the numbers. */
  lemma MeanBetween(mean: real, xs: seq<real>, lo: real, hi: real)
    requires xs != [] && MeanOf(mean, xs) && forall i :: 0 <= i < |xs| ==> lo <= xs[i] <= hi
    ensures lo <= mean <= hi
  {
    hide Sum;
    SumAbove(xs, lo);
    SumBelow(xs, hi);
    Arithmetic.Unscale(lo, mean, |xs| as real);
    Arithmetic.Unscale(mean, hi, |xs| as real);
  }

  /** The current estimated from a reading with a voltage other than 0, in amperes. */
  function Amperes(r: Reading): seq<real> {
    if r.voltage.Some? && r.voltage.value != 0.0 then [r.powerKw * 1000.0 / r.voltage.value] else []
  }

  function Currents(rs: seq<Reading>): seq<real> {
    if rs == [] then [] else Currents(rs[..|rs| - 1]) + Amperes(rs[|rs| - 1])
  }

  ghost predicate AnyZeroVoltage(rs: seq<Reading>) {
    exists i :: 0 <= i < |rs| && rs[i].voltage == Some(0.0)
  }

  lemma PowersSnoc(rs: seq<Reading>)
    requires rs != []
    ensures Powers(rs) == Powers(rs[..|rs| - 1]) + [rs[|rs| - 1].powerKw]
    ensures Sum(Powers(rs)) == Sum(Powers(rs[..|rs| - 1])) + rs[|rs| - 1].powerKw
  {
    assert Powers(rs)[..|rs| - 1] == Powers(rs[..|rs| - 1]);
  }

  lemma EnergiesSnoc(rs: seq<Reading>)
    requires rs != []
    ensures Sum(Energies(rs)) == Sum(Energies(rs[..|rs| - 1])) + Energies(rs)[|rs| - 1]
  {
    assert Energies(rs)[..|rs| - 1] == Energies(rs[..|rs| - 1]);
  }

  lemma VoltagesSnoc(rs: seq<Reading>)
    requires rs != []
    ensures var v, init := rs[|rs| - 1].voltage, Voltages(rs[..|rs| - 1]);
      && |Voltages(rs)| == |init| + (if v.Some? then 1 else 0)
      && Sum(Voltages(rs)) == Sum(init) + if v.Some? then v.value else 0.0
  {
    var init := Voltages(rs[..|rs| - 1]);
    if rs[|rs| - 1].voltage.Some? {
      assert Voltages(rs)[..|init|] == init;
    } else {
      assert Voltages(rs) == init;
    }
  }

  lemma ZeroVoltageSnoc(rs: seq<Reading>)
    requires rs != []
    ensures AnyZeroVoltage(rs) <==> AnyZeroVoltage(rs[..|rs| - 1]) || rs[|rs| - 1].voltage == Some(0.0)
  {
    var init := rs[..|rs| - 1];
    if AnyZeroVoltage(init) {
      var i :| 0 <= i < |init| && init[i].voltage == Some(0.0);
      assert rs[i] == init[i];
    }
    if i :| 0 <= i < |rs| - 1 && rs[i].voltage == Some(0.0) {
      assert init[i] == rs[i];
    }
  }

  lemma {:induction false} CurrentsCount(rs: seq<Reading>)
    requires !AnyZeroVoltage(rs)
    ensures |Currents(rs)| == |Voltages(rs)|
  {
    if rs != [] {
      ZeroVoltageSnoc(rs);
      hide AnyZeroVoltage;
      CurrentsCount(rs[..|rs| - 1]);
    }
  }

  lemma CurrentsSnoc(rs: seq<Reading>)
    requires rs != []
    ensures var init, a := Currents(rs[..|rs| - 1]), Amperes(rs[|rs| - 1]);
      Sum(Currents(rs)) == Sum(init) + if a == [] then 0.0 else a[0]
  {
    var init, a := Currents(rs[..|rs| - 1]), Amperes(rs[|rs| - 1]);
    assert |a| <= 1;
    hide Amperes;
    if a == [] {
      assert Currents(rs) == init;
    } else {
      assert Currents(rs)[..|init|] == init;
    }
  }

  /** The current sum is a number, and then the sum of the estimated currents, exactly when no voltage given is 0. */
  lemma {:induction false} FoldCurrent(rs: seq<Reading>)
    ensures Fold(rs).currentSum.Fin? <==> !AnyZeroVoltage(rs)
    ensures Fold(rs).currentSum.Fin? ==> Fold(rs).currentSum.v == Sum(Currents(rs))
  {
    hide Sum, Currents, AnyZeroVoltage;
    if rs != [] {
      FoldCurrent(rs[..|rs| - 1]);
      ZeroVoltageSnoc(rs);
      CurrentsSnoc(rs);
    } else {
      NoCurrents();
    }
  }

  /** A reading with voltage 0 and this sign of power: its estimated current is infinite, or NaN for power 0. */
  ghost predicate AnyStalled(rs: seq<Reading>, sign: int) {
    exists i :: 0 <= i < |rs| && Stalled(rs[i], sign)
  }

  predicate Stalled(r: Reading, sign: int) {
    r.voltage == Some(0.0) && sign == if r.powerKw > 0.0 then 1 else if r.powerKw < 0.0 then -1 else 0
  }

  lemma StalledSnoc(rs: seq<Reading>, sign: int)
    requires rs != []
    ensures AnyStalled(rs, sign) <==> AnyStalled(rs[..|rs| - 1], sign) || Stalled(rs[|rs| - 1], sign)
  {
    var init := rs[..|rs| - 1];
    if AnyStalled(init, sign) {
      var i :| 0 <= i < |init| && Stalled(init[i], sign);
      assert Stalled(rs[i], sign);
    }
    if i :| 0 <= i < |rs| - 1 && Stalled(rs[i], sign) {
      assert Stalled(init[i], sign);
    }
  }

  /** Which value the current sum has when it is no number. */
  lemma {:induction false} FoldStalled(rs: seq<Reading>)
    ensures var up, down := AnyStalled(rs, 1), AnyStalled(rs, -1);
      && (Fold(rs).currentSum.NaN? <==> AnyStalled(rs, 0) || (up && down))
      && (Fold(rs).currentSum.PosInf? <==> up && !down && !AnyStalled(rs, 0))
      && (Fold(rs).currentSum.NegInf? <==> down && !up && !AnyStalled(rs, 0))
  {
    hide AnyStalled;
    if rs != [] {
      FoldStalled(rs[..|rs| - 1]);
      StalledSnoc(rs, 1);
      StalledSnoc(rs, 0);
      StalledSnoc(rs, -1);
    } else {
      NoneStalled();
    }
  }

  lemma NoneStalled()
    ensures forall sign :: !AnyStalled([], sign)
  {
  }

  lemma NoCurrents()
    ensures Sum(Currents([])) == 0.0 && !AnyZeroVoltage([])
  {
  }

  /** Sums and counts of a window are those of its readings. */
  lemma {:induction false} FoldSums(rs: seq<Reading>)
    ensures Fold(rs).powerSum == Sum(Powers(rs)) && Fold(rs).energySum == Sum(Energies(rs))
    ensures Fold(rs).voltageSum == Sum(Voltages(rs))
    ensures Fold(rs).voltageCount == Fold(rs).currentCount == |Voltages(rs)|
    ensures Fold(rs).count == |rs|
    ensures Fold(rs).currentSum.Fin? <==> !AnyZeroVoltage(rs)
    ensures Fold(rs).currentSum.Fin? ==> Fold(rs).currentSum.v == Sum(Currents(rs))
  {
    FoldCurrent(rs);
    hide Currents, AnyZeroVoltage;
    if rs != [] {
      FoldSums(rs[..|rs| - 1]);
      PowersSnoc(rs);
      EnergiesSnoc(rs);
      VoltagesSnoc(rs);
      hide Voltages, Sum;
    }
  }

  /** The extremes of a non-empty window are attained and bound every reading; the starting maximum
      of 0 shows only when every power is negative. */
  lemma FoldExtremes(rs: seq<Reading>)
    requires rs != []
    ensures Fold(rs).minPower.Fin? && Least(Fold(rs).minPower.v, Powers(rs))
    ensures Fold(rs).maxPower == 0.0 || Fold(rs).maxPower in Powers(rs)
    ensures Fold(rs).maxPower >= 0.0 && forall i :: 0 <= i < |rs| ==> rs[i].powerKw <= Fold(rs).maxPower
  {
    hide Fold, Least;
    FoldMinimum(rs);
    FoldMaximum(rs);
  }

  lemma UpdateExtremes(s: Stats, r: Reading)
    ensures Update(s, r).maxPower == Max(s.maxPower, r.powerKw) &&
      Update(s, r).minPower == Min(s.minPower, Fin(r.powerKw))
  {
  }

  lemma {:induction false} FoldMinimum(rs: seq<Reading>)
    requires rs != []
    ensures Fold(rs).minPower.Fin? && Least(Fold(rs).minPower.v, Powers(rs))
  {
    hide Update, Powers;
    var init, last := rs[..|rs| - 1], rs[|rs| - 1];
    var xs := Powers(init);
    PowersSnoc(rs);
    assert Powers(rs)[|xs|] == last.powerKw && forall i :: 0 <= i < |xs| ==> Powers(rs)[i] == xs[i];
    UpdateExtremes(Fold(init), last);
    if init == [] {
      assert Fold(init) == EMPTY;
    } else {
      FoldMinimum(init);
      assert Fold(init).minPower.v in Powers(rs);
    }
  }

  lemma {:induction false} FoldMaximum(rs: seq<Reading>)
    ensures Fold(rs).maxPower == 0.0 || Fold(rs).maxPower in Powers(rs)
    ensures Fold(rs).maxPower >= 0.0 && forall i :: 0 <= i < |rs| ==> rs[i].powerKw <= Fold(rs).maxPower
    decreases |rs|
  {
    hide Update, Powers;
    if rs != [] {
      var init, last := rs[..|rs| - 1], rs[|rs| - 1];
      var xs := Powers(init);
      PowersSnoc(rs);
      assert Powers(rs)[|xs|] == last.powerKw && forall i :: 0 <= i < |xs| ==> Powers(rs)[i] == xs[i];
      UpdateExtremes(Fold(init), last);
      FoldMaximum(init);
      assert forall i :: 0 <= i < |init| ==> rs[i] == init[i];
    }
  }

  lemma MergeUpdate(a: Stats, b: Stats, r: Reading)
    ensures Update(Merge(a, b), r) == Merge(Update(a, r), b) == Merge(a, Update(b, r))
  {
    if r.voltage.Some? {
      var q := Quotient(r.powerKw * 1000.0, r.voltage.value);
    }
  }

  // ---------------------------------------------------------------- spans of time

  predicate InSpan(r: Reading, meter: string, lo: int, hi: int) {
    r.timestamp.Some? && r.meterId == meter && lo <= r.timestamp.value < hi
  }

  function Span(rs: seq<Reading>, meter: string, lo: int, hi: int): seq<Reading> {
    if rs == [] then []
    else Span(rs[..|rs| - 1], meter, lo, hi) + if InSpan(rs[|rs| - 1], meter, lo, hi) then [rs[|rs| - 1]] else []
  }

  lemma FoldSnoc(rs: seq<Reading>, r: Reading)
    ensures Fold(rs + [r]) == Update(Fold(rs), r)
  {
    assert (rs + [r])[..|rs|] == rs;
  }

  lemma SpanStep(rs: seq<Reading>, meter: string, lo: int, hi: int)
    requires rs != []
    ensures var init, last := rs[..|rs| - 1], rs[|rs| - 1];
      Fold(Span(rs, meter, lo, hi)) ==
      if InSpan(last, meter, lo, hi) then Update(Fold(Span(init, meter, lo, hi)), last)
      else Fold(Span(init, meter, lo, hi))
  {
    var init, last := rs[..|rs| - 1], rs[|rs| - 1];
    if InSpan(last, meter, lo, hi) {
      FoldSnoc(Span(init, meter, lo, hi), last);
    } else {
      assert Span(rs, meter, lo, hi) == Span(init, meter, lo, hi);
    }
  }

  lemma SpanCases(r: Reading, meter: string, lo: int, mid: int, hi: int)
    requires lo <= mid <= hi
    ensures InSpan(r, meter, lo, hi) <==> InSpan(r, meter, lo, mid) || InSpan(r, meter, mid, hi)
    ensures !(InSpan(r, meter, lo, mid) && InSpan(r, meter, mid, hi))
  {
  }

  lemma NothingSplits(rs: seq<Reading>, meter: string, lo: int, mid: int, hi: int)
    requires rs == []
    ensures Fold(Span(rs, meter, lo, hi)) == Merge(Fold(Span(rs, meter, lo, mid)), Fold(Span(rs, meter, mid, hi)))
  {
  }

  /** Splitting a span of time in two and merging the halves' folds loses nothing, however the
      arrivals of the two halves interleave. */
  lemma {:induction false} SpanSplits(rs: seq<Reading>, meter: string, lo: int, mid: int, hi: int)
    requires lo <= mid <= hi
    ensures Fold(Span(rs, meter, lo, hi)) == Merge(Fold(Span(rs, meter, lo, mid)), Fold(Span(rs, meter, mid, hi)))
  {
    hide *;
    if rs == [] {
      NothingSplits(rs, meter, lo, mid, hi);
      return;
    }
    var init, last := rs[..|rs| - 1], rs[|rs| - 1];
    SpanSplits(init, meter, lo, mid, hi);
    SpanStep(rs, meter, lo, hi);
    SpanStep(rs, meter, lo, mid);
    SpanStep(rs, meter, mid, hi);
    SpanCases(last, meter, lo, mid, hi);
    MergeUpdate(Fold(Span(init, meter, lo, mid)), Fold(Span(init, meter, mid, hi)), last);
  }

  /** The merge of n consecutive windows of the same width. */
  function MergeRun(rs: seq<Reading>, meter: string, start: int, width: nat, n: nat): Stats {
    if n == 0 then EMPTY
    else Merge(MergeRun(rs, meter, start, width, n - 1),
               Fold(Span(rs, meter, start + (n - 1) * width, start + n * width)))
  }

  lemma {:induction false} EmptySpan(rs: seq<Reading>, meter: string, at: int)
    ensures Span(rs, meter, at, at) == []
  {
    if rs != [] {
      EmptySpan(rs[..|rs| - 1], meter, at);
    }
  }

  lemma {:induction false} RunIsWhole(rs: seq<Reading>, meter: string, start: int, width: nat, n: nat)
    ensures Fold(Span(rs, meter, start, start + n * width)) == MergeRun(rs, meter, start, width, n)
  {
    hide Fold, Merge, Span;
    if n == 0 {
      EmptySpan(rs, meter, start);
      FoldNone();
      return;
    }
    RunIsWhole(rs, meter, start, width, n - 1);
    assert n * width == (n - 1) * width + width;
    SpanSplits(rs, meter, start, start + (n - 1) * width, start + n * width);
  }

  // ---------------------------------------------------------------- the window table

  datatype Window = Window(meterId: string, region: string, stats: Stats)

  /** bucket key -> meter -> window */
  type WindowTable = map<string, map<string, Window>>

  predicate Has(ws: WindowTable, bucket: string, meter: string) {
    bucket in ws && meter in ws[bucket]
  }

  function WindowOf(rs: seq<Reading>, meter: string): Window
    requires rs != []
  {
    Window(meter, rs[|rs| - 1].region, Fold(rs))
  }

  function BucketIn(ws: WindowTable, bucket: string): map<string, Window> {
    if bucket in ws then ws[bucket] else map[]
  }

  /** r's window after r: created on its first reading, updated in place otherwise. */
  function Touched(ws: WindowTable, bucket: string, r: Reading): Window {
    var w := if Has(ws, bucket, r.meterId) then ws[bucket][r.meterId] else Window(r.meterId, r.region, EMPTY);
    w.(region := r.region, stats := Update(w.stats, r))
  }

  function UpdateTable(ws: WindowTable, bucket: string, r: Reading): WindowTable {
    ws[bucket := BucketIn(ws, bucket)[r.meterId := Touched(ws, bucket, r)]]
  }

  ghost predicate HoldsAt(ws: WindowTable, key: BucketKey, rs: seq<Reading>, b: string, m: string) {
    var sel := Select(rs, key, b, m);
    && (Has(ws, b, m) <==> sel != [])
    && (Has(ws, b, m) ==> ws[b][m] == WindowOf(sel, m))
  }

  /** The table holds, for every meter and bucket with readings in rs, exactly the fold of those
      readings and the region of the latest one, and holds nothing else. */
  ghost predicate Holds(ws: WindowTable, key: BucketKey, rs: seq<Reading>) {
    && (forall b :: b in ws ==> ws[b] != map[])
    && (forall b, m :: HoldsAt(ws, key, rs, b, m))
  }

  lemma UpdateHoldsAt(ws: WindowTable, key: BucketKey, rs: seq<Reading>, r: Reading, b: string, m: string)
    requires r.timestamp.Some? && HoldsAt(ws, key, rs, b, m)
    ensures HoldsAt(UpdateTable(ws, key(r.timestamp.value), r), key, rs + [r], b, m)
  {
    hide Update, Fold;
    SelectSnoc(rs, r, key, b, m);
    var sel := Select(rs, key, b, m);
    if Lands(r, key, b, m) {
      FoldSnoc(sel, r);
      FoldNone();
    } else {
      assert Select(rs + [r], key, b, m) == sel;
    }
  }

  lemma FoldNone()
    ensures Fold([]) == EMPTY
  {
  }

  /** Processing one reading keeps the table the fold of all readings. */
  lemma UpdateHolds(ws: WindowTable, key: BucketKey, rs: seq<Reading>, r: Reading)
    requires Holds(ws, key, rs) && r.timestamp.Some?
    ensures Holds(UpdateTable(ws, key(r.timestamp.value), r), key, rs + [r])
  {
    hide Update, Fold, Select;
    forall b, m ensures HoldsAt(UpdateTable(ws, key(r.timestamp.value), r), key, rs + [r], b, m) {
      assert HoldsAt(ws, key, rs, b, m);
      UpdateHoldsAt(ws, key, rs, r, b, m);
    }
    assert r.meterId in UpdateTable(ws, key(r.timestamp.value), r)[key(r.timestamp.value)];
  }

  /** A reading without a date changes nothing. */
  lemma UndatedHolds(ws: WindowTable, key: BucketKey, rs: seq<Reading>, r: Reading)
    requires Holds(ws, key, rs) && r.timestamp.None?
    ensures Holds(ws, key, rs + [r])
  {
    hide Fold;
    forall b, m ensures HoldsAt(ws, key, rs + [r], b, m) {
      assert HoldsAt(ws, key, rs, b, m);
      SelectSnoc(rs, r, key, b, m);
      assert Select(rs + [r], key, b, m) == Select(rs, key, b, m);
    }
  }

  /** Some element of a set, for sums over sets. */
  ghost function Pick<T>(s: set<T>): (x: T)
    requires s != {}
    ensures x in s
  {
    var x :| x in s; x
  }
}

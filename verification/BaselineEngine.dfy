/** Rolling baselines: record and is_plausible of feral-core/agents/baseline_engine.py. */
module BaselineEngine {
  import opened Prelude
  import opened TextTools

  /** A value handed to `record`: a number, an infinity or NaN, or something `float` refuses. */
  datatype Reading = Number(x: real) | NotFinite | NotANumber

  datatype Range = Range(lo: real, hi: real)

  /** The physiological ranges; a metric without one is not range-checked. */
  function PlausibleRanges(): map<string, Range> {
    map["hr" := Range(25.0, 220.0), "hr_resting" := Range(25.0, 220.0), "heart_rate" := Range(25.0, 220.0),
        "spo2" := Range(50.0, 100.0), "spo2_pct" := Range(50.0, 100.0), "hrv_ms" := Range(1.0, 500.0),
        "skin_temp" := Range(20.0, 45.0), "respiration" := Range(4.0, 60.0)]
  }

  function UpToColon(s: string): string {
    if s == "" || s[0] == ':' then "" else [s[0]] + UpToColon(s[1..])
  }

  /** `hr_resting:glasses` and `hr_resting` are one metric. */
  function BaseMetric(metric: string): string {
    Lower(Strip(UpToColon(metric)))
  }

  function RangeOf(metric: string): Option<Range> {
    var base := BaseMetric(metric);
    if base in PlausibleRanges() then Some(PlausibleRanges()[base]) else None
  }

  predicate InRange(range: Option<Range>, x: real) {
    range.Some? ==> range.value.lo <= x <= range.value.hi
  }

  predicate AllInRange(range: Option<Range>, values: seq<real>) {
    forall i :: 0 <= i < |values| ==> InRange(range, values[i])
  }

  predicate IsPlausible(range: Option<Range>, reading: Reading) {
    reading.Number? && InRange(range, reading.x)
  }

  lemma {:induction false} UpToColonMeaning(name: string, tag: string)
    requires ':' !in name && (tag == "" || tag[0] == ':')
    ensures UpToColon(name + tag) == name
    decreases |name|
  {
    if name == "" {
      assert name + tag == tag;
    } else {
      assert (name + tag)[1..] == name[1..] + tag;
      UpToColonMeaning(name[1..], tag);
      assert [name[0]] + name[1..] == name;
    }
  }

  /**
   * A reading is plausible exactly when it is a finite number within the range of its metric, whose name is taken up
   * to the first colon, without blanks around it and in small letters; other metrics have no range.
   */
  lemma {:induction false} PlausibleIff(name: string, tag: string, reading: Reading)
    requires ':' !in name && (tag == "" || tag[0] == ':')
    ensures var base := Lower(Strip(name));
            IsPlausible(RangeOf(name + tag), reading) <==>
            && reading.Number?
            && (base in {"hr", "hr_resting", "heart_rate"} ==> 25.0 <= reading.x <= 220.0)
            && (base in {"spo2", "spo2_pct"} ==> 50.0 <= reading.x <= 100.0)
            && (base == "hrv_ms" ==> 1.0 <= reading.x <= 500.0)
            && (base == "skin_temp" ==> 20.0 <= reading.x <= 45.0)
            && (base == "respiration" ==> 4.0 <= reading.x <= 60.0)
  {
    UpToColonMeaning(name, tag);
    hide Lower, Strip, UpToColon;
    RangeTable(Lower(Strip(name)));
  }

  /** The ranges by name. */
  lemma {:induction false} RangeTable(base: string)
    ensures base in PlausibleRanges() <==>
            base in {"hr", "hr_resting", "heart_rate", "spo2", "spo2_pct", "hrv_ms", "skin_temp", "respiration"}
    ensures base in {"hr", "hr_resting", "heart_rate"} ==> PlausibleRanges()[base] == Range(25.0, 220.0)
    ensures base in {"spo2", "spo2_pct"} ==> PlausibleRanges()[base] == Range(50.0, 100.0)
    ensures base == "hrv_ms" ==> PlausibleRanges()[base] == Range(1.0, 500.0)
    ensures base == "skin_temp" ==> PlausibleRanges()[base] == Range(20.0, 45.0)
    ensures base == "respiration" ==> PlausibleRanges()[base] == Range(4.0, 60.0)
  {
  }

  // ---- Statistics of a window ----

  function Sum(values: seq<real>): real {
    if values == [] then 0.0 else values[0] + Sum(values[1..])
  }

  function Mean(values: seq<real>): real {
    if values == [] then 0.0 else Sum(values) / (|values| as real)
  }

  function SquaredDistance(x: real, m: real): real {
    (x - m) * (x - m)
  }

  function SquaredDistances(values: seq<real>, m: real): seq<real> {
    seq(|values|, i requires 0 <= i < |values| => SquaredDistance(values[i], m))
  }

  /** The population variance, 0 for fewer than two values; the source keeps its square root. */
  function Variance(values: seq<real>): real {
    if |values| >= 2 then Mean(SquaredDistances(values, Mean(values))) else 0.0
  }

  lemma {:induction false} DistancesTail(values: seq<real>, m: real)
    requires values != []
    ensures SquaredDistances(values, m)[1..] == SquaredDistances(values[1..], m)
    ensures Sum(SquaredDistances(values, m)) == SquaredDistance(values[0], m) + Sum(SquaredDistances(values[1..], m))
  {
    hide SquaredDistance;
    forall i | 0 <= i < |values| - 1
      ensures SquaredDistances(values, m)[1..][i] == SquaredDistances(values[1..], m)[i]
    {
      assert values[1..][i] == values[i + 1];
    }
  }

  /** A sum of squared distances from `m`, given the sum of squares, the sum and the number of values. */
  function Expansion(squares: real, m: real, sum: real, n: real): real {
    squares - 2.0 * m * sum + n * m * m
  }

  lemma {:induction false} ExpansionStep(x: real, m: real, squares: real, sum: real, n: real)
    ensures SquaredDistance(x, m) + Expansion(squares, m, sum, n) ==
            Expansion(SquaredDistance(x, 0.0) + squares, m, x + sum, n + 1.0)
  {
  }

  lemma {:induction false} SumOfSquaredDistances(values: seq<real>, m: real)
    ensures Sum(SquaredDistances(values, m)) ==
            Expansion(Sum(SquaredDistances(values, 0.0)), m, Sum(values), |values| as real)
    decreases |values|
  {
    if values == [] {
      assert Sum(SquaredDistances(values, m)) == Sum(SquaredDistances(values, 0.0)) == 0.0;
    } else {
      hide SquaredDistance, Expansion, SquaredDistances;
      var rest := values[1..];
      SumOfSquaredDistances(rest, m);
      DistancesTail(values, m);
      DistancesTail(values, 0.0);
      ExpansionStep(values[0], m, Sum(SquaredDistances(rest, 0.0)), Sum(rest), |rest| as real);
    }
  }

  lemma {:induction false} ExpansionAtMean(squares: real, sum: real, n: real)
    requires n > 0.0
    ensures Expansion(squares, sum / n, sum, n) / n == squares / n - (sum / n) * (sum / n)
  {
    var m := sum / n;
    assert m * n == sum;
    assert n * m * m == sum * m;
    assert Expansion(squares, m, sum, n) == squares - sum * m;
    assert (squares - sum * m) / n == squares / n - m * m by {
      assert (squares / n - m * m) * n == squares - sum * m;
    }
  }

  lemma {:induction false} SumAppend(a: seq<real>, b: seq<real>)
    ensures Sum(a + b) == Sum(a) + Sum(b)
    decreases |a|
  {
    if a == [] {
      assert a + b == b;
    } else {
      assert (a + b)[1..] == a[1..] + b;
      SumAppend(a[1..], b);
    }
  }

  /** The mean of one value is that value; that of two parts together is their means weighed by their sizes. */
  lemma {:induction false} MeanMeaning(a: seq<real>, b: seq<real>, x: real)
    ensures Mean([]) == 0.0 && Mean([x]) == x
    ensures a != [] && b != [] ==>
              Mean(a + b) * (|a| + |b|) as real == Mean(a) * |a| as real + Mean(b) * |b| as real
  {
    assert [x][1..] == [] && Sum([x]) == x + Sum([]);
    SumAppend(a, b);
    hide Sum;
    MeanTimesCount(a);
    MeanTimesCount(b);
    MeanTimesCount(a + b);
  }

  lemma {:induction false} MeanTimesCount(values: seq<real>)
    ensures values != [] ==> Mean(values) * |values| as real == Sum(values)
  {
  }

  function Squares(values: seq<real>): seq<real> {
    seq(|values|, i requires 0 <= i < |values| => values[i] * values[i])
  }

  lemma {:induction false} SquaresAreDistances(values: seq<real>)
    ensures Squares(values) == SquaredDistances(values, 0.0)
  {
    forall i | 0 <= i < |values| ensures Squares(values)[i] == SquaredDistances(values, 0.0)[i] {
    }
  }

  /** The variance is the mean of the squares less the square of the mean. */
  lemma {:induction false} VarianceMeaning(values: seq<real>)
    ensures |values| >= 2 ==> Variance(values) == Mean(Squares(values)) - Mean(values) * Mean(values)
    ensures |values| < 2 ==> Variance(values) == 0.0
  {
    if |values| >= 2 {
      VarianceOfSquares(values);
    }
  }

  lemma {:induction false} VarianceOfSquares(values: seq<real>)
    requires |values| >= 2
    ensures Variance(values) == Mean(Squares(values)) - Mean(values) * Mean(values)
  {
    SquaresAreDistances(values);
    hide Squares, SquaredDistance;
    var mean, n, squares := Mean(values), |values| as real, Sum(SquaredDistances(values, 0.0));
    SumOfSquaredDistances(values, mean);
    ExpansionAtMean(squares, Sum(values), n);
    hide Sum, Expansion;
    assert |SquaredDistances(values, mean)| == |values| == |SquaredDistances(values, 0.0)|;
  }

  lemma {:induction false} SumInRange(values: seq<real>, lo: real, hi: real)
    requires forall i :: 0 <= i < |values| ==> lo <= values[i] <= hi
    ensures (|values| as real) * lo <= Sum(values) <= (|values| as real) * hi
    decreases |values|
  {
    if values != [] {
      SumInRange(values[1..], lo, hi);
      assert |values| as real == 1.0 + |values[1..]| as real;
    }
  }

  lemma {:induction false} QuotientInRange(sum: real, n: real, lo: real, hi: real)
    requires n > 0.0 && n * lo <= sum <= n * hi
    ensures lo <= sum / n <= hi
  {
    var q := sum / n;
    assert q * n == sum;
    assert q < lo ==> q * n < lo * n;
    assert q > hi ==> q * n > hi * n;
  }

  lemma {:induction false} MeanInRange(values: seq<real>, lo: real, hi: real)
    requires values != [] && forall i :: 0 <= i < |values| ==> lo <= values[i] <= hi
    ensures lo <= Mean(values) <= hi
  {
    SumInRange(values, lo, hi);
    QuotientInRange(Sum(values), |values| as real, lo, hi);
  }

  // ---- One stored baseline ----

  datatype Row = Row(values: seq<real>, mean: real, variance: real, window: int)

  function Kept(range: Option<Range>, values: seq<real>): seq<real> {
    if values == [] then []
    else (if InRange(range, values[0]) then [values[0]] else []) + Kept(range, values[1..])
  }

  /** The row after a plausible reading: old dropouts are removed, and the window keeps its first size. */
  function NextRow(row: Option<Row>, range: Option<Range>, x: real, windowSize: int): Row {
    var window := if row.Some? then row.value.window else windowSize;
    var values := Kept(range, if row.Some? then row.value.values else []) + [x];
    var kept := if |values| > window then SliceTail(values, window) else values;
    Row(kept, Mean(kept), Variance(kept), window)
  }

  /** The cached statistics agree with the window, and the window holds plausible readings only. */
  predicate SoundRow(row: Row, range: Option<Range>) {
    AllInRange(range, row.values) && row.mean == Mean(row.values) && row.variance == Variance(row.values)
  }

  lemma {:induction false} KeptInRange(range: Option<Range>, values: seq<real>)
    ensures AllInRange(range, Kept(range, values))
    ensures AllInRange(range, values) ==> Kept(range, values) == values
    decreases |values|
  {
    if values != [] {
      KeptInRange(range, values[1..]);
    }
  }

  /** Of a stored window the values in the range are kept, in their order: one more value, one more kept or not. */
  lemma {:induction false} KeptMeaning(range: Option<Range>, values: seq<real>, x: real)
    ensures Kept(range, []) == []
    ensures Kept(range, values + [x]) ==
            Kept(range, values) +
            if range.Some? && !(range.value.lo <= x <= range.value.hi) then [] else [x]
    decreases |values|
  {
    if values == [] {
      assert [] + [x] == [x] && [x][1..] == [];
    } else {
      KeptMeaning(range, values[1..], x);
      assert (values + [x])[1..] == values[1..] + [x];
    }
  }

  /** The next plausible reading repairs any stored row, whatever was in it. */
  lemma {:induction false} NextRowIsSound(row: Option<Row>, range: Option<Range>, x: real, windowSize: int)
    requires InRange(range, x)
    ensures SoundRow(NextRow(row, range, x, windowSize), range)
  {
    KeptInRange(range, if row.Some? then row.value.values else []);
  }

  /** The mean of a ranged metric lies in its range. */
  lemma {:induction false} SoundMeanInRange(row: Row, range: Range)
    requires SoundRow(row, Some(range)) && row.values != []
    ensures range.lo <= row.mean <= range.hi
  {
    assert forall i :: 0 <= i < |row.values| ==> InRange(Some(range), row.values[i]);
    MeanInRange(row.values, range.lo, range.hi);
  }

  // ---- Whole histories ----

  datatype Record = Record(metric: string, reading: Reading, windowSize: int)

  function NextStore(store: map<string, Row>, rangeOf: string -> Option<Range>, r: Record): map<string, Row> {
    if !IsPlausible(rangeOf(r.metric), r.reading) then store
    else
      var row := if r.metric in store then Some(store[r.metric]) else None;
      store[r.metric := NextRow(row, rangeOf(r.metric), r.reading.x, r.windowSize)]
  }

  function StoreAfter(h: seq<Record>, rangeOf: string -> Option<Range>): map<string, Row> {
    if h == [] then map[] else NextStore(StoreAfter(h[..|h| - 1], rangeOf), rangeOf, h[|h| - 1])
  }

  /** All plausible readings of a metric, in order. */
  function Accepted(h: seq<Record>, rangeOf: string -> Option<Range>, metric: string): seq<real> {
    if h == [] then []
    else
      var r := h[|h| - 1];
      Accepted(h[..|h| - 1], rangeOf, metric) +
      if r.metric == metric && IsPlausible(rangeOf(metric), r.reading) then [r.reading.x] else []
  }

  /** The window size of a metric: that of its first plausible record. */
  function WindowOf(h: seq<Record>, rangeOf: string -> Option<Range>, metric: string): int {
    if h == [] then 0
    else
      var front, r := h[..|h| - 1], h[|h| - 1];
      if Accepted(front, rangeOf, metric) == [] then r.windowSize else WindowOf(front, rangeOf, metric)
  }

  function Rejected(h: seq<Record>, rangeOf: string -> Option<Range>): nat {
    if h == [] then 0
    else Rejected(h[..|h| - 1], rangeOf) +
         if IsPlausible(rangeOf(h[|h| - 1].metric), h[|h| - 1].reading) then 0 else 1
  }

  /** The window over all accepted readings: the last `window`, all of them for 0, none for a negative size. */
  function Window(accepted: seq<real>, window: int): seq<real> {
    if window < 0 then [] else SliceTail(accepted, window)
  }

  lemma {:induction false} WindowStep(accepted: seq<real>, window: int, x: real)
    ensures var values := Window(accepted, window) + [x];
            (if |values| > window then SliceTail(values, window) else values) == Window(accepted + [x], window)
  {
    if window > 0 && |accepted| >= window {
      var tail := accepted[|accepted| - window..] + [x];
      assert tail[1..] == (accepted + [x])[|accepted| + 1 - window..];
    }
  }

  lemma {:induction false} AcceptedInRange(h: seq<Record>, rangeOf: string -> Option<Range>, metric: string)
    ensures AllInRange(rangeOf(metric), Accepted(h, rangeOf, metric))
    decreases |h|
  {
    if h != [] {
      AcceptedInRange(h[..|h| - 1], rangeOf, metric);
    }
  }

  lemma {:induction false} WindowInRange(range: Option<Range>, accepted: seq<real>, window: int)
    requires AllInRange(range, accepted)
    ensures AllInRange(range, Window(accepted, window))
  {
  }

  /** What the store holds for a metric after a history. */
  ghost predicate RowMatches(store: map<string, Row>, metric: string, accepted: seq<real>, window: int) {
    if accepted == [] then metric !in store
    else
      && metric in store
      && store[metric].window == window
      && store[metric].values == Window(accepted, window)
      && store[metric].mean == Mean(Window(accepted, window))
      && store[metric].variance == Variance(Window(accepted, window))
  }

  lemma {:induction false} NextRowMatches(store: map<string, Row>, range: Option<Range>, metric: string,
                                          accepted: seq<real>, window: int, x: real, windowSize: int)
    requires RowMatches(store, metric, accepted, window) && AllInRange(range, accepted)
    ensures var w := if accepted == [] then windowSize else window;
            var row := if metric in store then Some(store[metric]) else None;
            var next := NextRow(row, range, x, windowSize);
            && next.window == w
            && next.values == Window(accepted + [x], w)
            && next.mean == Mean(next.values) && next.variance == Variance(next.values)
  {
    var w := if accepted == [] then windowSize else window;
    WindowInRange(range, accepted, w);
    KeptInRange(range, Window(accepted, w));
    WindowStep(accepted, w, x);
    assert accepted == [] ==> Window(accepted, w) == [];
  }

  lemma {:induction false} NextStoreMatches(store: map<string, Row>, rangeOf: string -> Option<Range>, r: Record,
                                            metric: string, accepted: seq<real>, window: int)
    requires RowMatches(store, metric, accepted, window) && AllInRange(rangeOf(metric), accepted)
    ensures var counts := r.metric == metric && IsPlausible(rangeOf(metric), r.reading);
            RowMatches(NextStore(store, rangeOf, r), metric,
                       accepted + (if counts then [r.reading.x] else []),
                       if accepted == [] then r.windowSize else window)
  {
    if r.metric == metric && IsPlausible(rangeOf(metric), r.reading) {
      NextRowMatches(store, rangeOf(metric), metric, accepted, window, r.reading.x, r.windowSize);
    } else {
      assert accepted + [] == accepted;
    }
  }

  /**
   * After any history a metric's window is the last `window` plausible readings ever recorded, in order, where
   * `window` is the size given with the first of them; the cached mean and variance are those of the window.
   */
  lemma {:induction false} StoreHoldsTheWindow(h: seq<Record>, rangeOf: string -> Option<Range>, metric: string)
    ensures RowMatches(StoreAfter(h, rangeOf), metric, Accepted(h, rangeOf, metric), WindowOf(h, rangeOf, metric))
    decreases |h|
  {
    if h != [] {
      var front, r := h[..|h| - 1], h[|h| - 1];
      var accepted, window := Accepted(front, rangeOf, metric), WindowOf(front, rangeOf, metric);
      StoreHoldsTheWindow(front, rangeOf, metric);
      AcceptedInRange(front, rangeOf, metric);
      NextStoreMatches(StoreAfter(front, rangeOf), rangeOf, r, metric, accepted, window);
    }
  }

  /** The learned mean of a ranged metric always lies in its plausible range. */
  lemma {:induction false} LearnedMeanInRange(h: seq<Record>, rangeOf: string -> Option<Range>, metric: string)
    requires metric in StoreAfter(h, rangeOf) && rangeOf(metric).Some?
    requires StoreAfter(h, rangeOf)[metric].window >= 0
    ensures var range := rangeOf(metric).value;
            range.lo <= StoreAfter(h, rangeOf)[metric].mean <= range.hi
  {
    var range := rangeOf(metric).value;
    var accepted, window := Accepted(h, rangeOf, metric), WindowOf(h, rangeOf, metric);
    StoreHoldsTheWindow(h, rangeOf, metric);
    AcceptedInRange(h, rangeOf, metric);
    var row := StoreAfter(h, rangeOf)[metric];
    WindowInRange(Some(range), accepted, window);
    assert row.values != [];
    SoundMeanInRange(row, range);
  }

  class BaselineEngine {
    const rangeOf: string -> Option<Range>
    var rows: map<string, Row>
    var rejected: nat
    ghost var history: seq<Record>

    ghost predicate Valid()
      reads this
    {
      rows == StoreAfter(history, rangeOf) && rejected == Rejected(history, rangeOf)
    }

    constructor ()
      ensures Valid() && history == [] && rangeOf == RangeOf
    {
      rangeOf, rows, rejected, history := RangeOf, map[], 0, [];
    }

    /** `record`: drop an implausible reading, else slide the window and recompute its statistics. */
    method RecordReading(metric: string, reading: Reading, windowSize: int)
      requires Valid()
      modifies this
      ensures Valid() && history == old(history) + [Record(metric, reading, windowSize)]
      ensures forall m :: RowMatches(rows, m, Accepted(history, rangeOf, m), WindowOf(history, rangeOf, m))
    {
      ghost var r := Record(metric, reading, windowSize);
      ghost var all := history + [r];
      assert all[..|history|] == history;
      var range := rangeOf(metric);
      if !IsPlausible(range, reading) {
        rejected := rejected + 1;
      } else {
        var row := if metric in rows then Some(rows[metric]) else None;
        rows := rows[metric := NextRow(row, range, reading.x, windowSize)];
      }
      history := all;
      forall m ensures RowMatches(rows, m, Accepted(history, rangeOf, m), WindowOf(history, rangeOf, m)) {
        StoreHoldsTheWindow(history, rangeOf, m);
      }
    }
  }
}

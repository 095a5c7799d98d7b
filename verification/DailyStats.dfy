/** Daily buckets and trends: get_daily_stats and get_trend of feral-core/agents/baseline_engine.py. */
module DailyStats {
  import opened Prelude
  import opened BaselineEngine

  /** A stored sample of one metric; samples come in the order of their times. */
  datatype Sample = Sample(ts: real, source: string, value: real)

  /** A calendar date, by its day number. */
  datatype Date = Date(number: int)

  datatype Daily = Daily(day: Date, count: nat, min: real, max: real, avg: real, first: real, last: real)

  /** `None` statistics stand for an empty window. */
  datatype Trend = Trend(count: nat, sources: set<string>, min: Option<real>, max: Option<real>, avg: Option<real>,
                         firstTs: Option<real>, lastTs: Option<real>, daily: seq<Daily>)

  /** The local calendar date of a time, and rounding to two places. */
  datatype Calendar = Calendar(dayOf: real -> Date, round: real -> real)

  ghost predicate RoundsMonotonically(c: Calendar) {
    forall x, y :: x <= y ==> RoundsInOrder(c, x, y)
  }

  predicate RoundsInOrder(c: Calendar, x: real, y: real) {
    c.round(x) <= c.round(y)
  }

  predicate Selected(s: Sample, since: real, source: string) {
    s.ts >= since && (source == "" || s.source == source)
  }

  /** `get_samples` with a lower bound. */
  function Since(stored: seq<Sample>, since: real, source: string): seq<Sample> {
    if stored == [] then []
    else (if Selected(stored[0], since, source) then [stored[0]] else []) + Since(stored[1..], since, source)
  }

  lemma {:induction false} SinceUnfold(stored: seq<Sample>, since: real, source: string)
    ensures Since([], since, source) == []
    ensures stored != [] ==>
              Since(stored, since, source) ==
              (if Selected(stored[0], since, source) then [stored[0]] else []) + Since(stored[1..], since, source)
  {
  }

  /** One more sample at the end is selected if it is not too old and from the source asked for, if any is. */
  lemma {:induction false} SinceMeaning(stored: seq<Sample>, s: Sample, since: real, source: string)
    ensures Since([], since, source) == []
    ensures Since(stored + [s], since, source) ==
            Since(stored, since, source) +
            if since <= s.ts && source in {"", s.source} then [s] else []
    decreases |stored|
  {
    hide Since, Selected;
    SinceUnfold(stored, since, source);
    SinceUnfold(stored + [s], since, source);
    SelectedMeaning(s, since, source);
    if stored == [] {
      assert [] + [s] == [s] && [s][1..] == [];
    } else {
      SinceMeaning(stored[1..], s, since, source);
      assert (stored + [s])[0] == stored[0] && (stored + [s])[1..] == stored[1..] + [s];
    }
  }

  lemma {:induction false} SelectedMeaning(s: Sample, since: real, source: string)
    ensures Selected(s, since, source) <==> since <= s.ts && source in {"", s.source}
  {
  }

  function Values(samples: seq<Sample>): (r: seq<real>)
    ensures |r| == |samples| && forall i :: 0 <= i < |samples| ==> r[i] == samples[i].value
  {
    if samples == [] then [] else Values(samples[..|samples| - 1]) + [samples[|samples| - 1].value]
  }

  /** The values of one day, in order. */
  function ValuesOn(samples: seq<Sample>, day: Date, c: Calendar): seq<real> {
    if samples == [] then []
    else ValuesOn(samples[..|samples| - 1], day, c) +
         if c.dayOf(samples[|samples| - 1].ts) == day then [samples[|samples| - 1].value] else []
  }

  function Days(samples: seq<Sample>, c: Calendar): set<Date> {
    if samples == [] then {}
    else Days(samples[..|samples| - 1], c) + {c.dayOf(samples[|samples| - 1].ts)}
  }

  function MinOf(values: seq<real>): (m: real)
    requires values != []
    ensures m in values && forall v :: v in values ==> m <= v
  {
    if |values| == 1 then values[0]
    else
      var m := MinOf(values[..|values| - 1]);
      assert forall v :: v in values ==> v in values[..|values| - 1] || v == values[|values| - 1];
      if values[|values| - 1] < m then values[|values| - 1] else m
  }

  function MaxOf(values: seq<real>): (m: real)
    requires values != []
    ensures m in values && forall v :: v in values ==> v <= m
  {
    if |values| == 1 then values[0]
    else
      var m := MaxOf(values[..|values| - 1]);
      assert forall v :: v in values ==> v in values[..|values| - 1] || v == values[|values| - 1];
      if values[|values| - 1] > m then values[|values| - 1] else m
  }

  function DayStats(day: Date, values: seq<real>, c: Calendar): Daily
    requires values != []
  {
    Daily(day, |values|, c.round(MinOf(values)), c.round(MaxOf(values)), c.round(Mean(values)),
          c.round(values[0]), c.round(values[|values| - 1]))
  }

  lemma {:induction false} DaysHaveValues(samples: seq<Sample>, day: Date, c: Calendar)
    ensures day in Days(samples, c) <==> ValuesOn(samples, day, c) != []
    decreases |samples|
  {
    if samples != [] {
      DaysHaveValues(samples[..|samples| - 1], day, c);
    }
  }

  /** The entry holds the rounded statistics of the values of its day. */
  ghost predicate IsEntry(e: Daily, values: seq<real>, c: Calendar) {
    && values != []
    && e.count == |values|
    && e.min == c.round(MinOf(values)) && e.max == c.round(MaxOf(values)) && e.avg == c.round(Mean(values))
    && e.first == c.round(values[0]) && e.last == c.round(values[|values| - 1])
  }

  /** The k-th entry is that of the values of its day. */
  ghost predicate IsEntryAt(daily: seq<Daily>, k: nat, samples: seq<Sample>, c: Calendar)
    requires k < |daily|
  {
    IsEntry(daily[k], ValuesOn(samples, daily[k].day, c), c)
  }

  /** One entry for every day with samples, in the order of the days, each with the statistics of its day. */
  ghost predicate IsDaily(daily: seq<Daily>, samples: seq<Sample>, c: Calendar) {
    && (forall i, j :: 0 <= i < j < |daily| ==> daily[i].day.number < daily[j].day.number)
    && (forall i :: 0 <= i < |samples| ==> exists k :: 0 <= k < |daily| && daily[k].day == c.dayOf(samples[i].ts))
    && (forall k :: 0 <= k < |daily| ==> IsEntryAt(daily, k, samples, c))
  }

  lemma {:induction false} EntryOf(daily: seq<Daily>, samples: seq<Sample>, c: Calendar, k: nat)
    requires IsDaily(daily, samples, c) && k < |daily|
    ensures IsEntry(daily[k], ValuesOn(samples, daily[k].day, c), c)
  {
    assert IsEntryAt(daily, k, samples, c);
  }

  /** The values of a day are those of its samples, in their order. */
  lemma {:induction false} ValuesOnMeaning(samples: seq<Sample>, day: Date, c: Calendar, i: nat)
    requires i < |samples|
    ensures c.dayOf(samples[i].ts) == day ==>
              var k := |ValuesOn(samples[..i], day, c)|;
              k < |ValuesOn(samples, day, c)| && ValuesOn(samples, day, c)[k] == samples[i].value
    ensures c.dayOf(samples[i].ts) != day ==>
              ValuesOn(samples[..i + 1], day, c) == ValuesOn(samples[..i], day, c)
    decreases |samples|
  {
    var n := |samples| - 1;
    assert samples[..i + 1][..i] == samples[..i];
    if i < n {
      ValuesOnMeaning(samples[..n], day, c, i);
      assert samples[..n][..i] == samples[..i] && samples[..n][i] == samples[i];
    }
  }

  method LeastDay(days: set<Date>) returns (m: Date)
    requires days != {}
    ensures m in days && forall d :: d in days ==> m.number <= d.number
  {
    m :| m in days;
    var rest := days - {m};
    while rest != {}
      invariant rest <= days && m in days
      invariant forall d :: d in days && d !in rest ==> m.number <= d.number
      decreases rest
    {
      var d :| d in rest;
      if d.number < m.number {
        m := d;
      }
      rest := rest - {d};
    }
  }

  ghost predicate BucketsMatch(buckets: map<Date, seq<real>>, samples: seq<Sample>, c: Calendar) {
    && buckets.Keys == Days(samples, c)
    && forall d :: d in buckets ==> buckets[d] == ValuesOn(samples, d, c) && buckets[d] != []
  }

  lemma {:induction false} BucketsMatchStep(buckets: map<Date, seq<real>>, samples: seq<Sample>, s: Sample, c: Calendar)
    requires BucketsMatch(buckets, samples, c)
    ensures var day := c.dayOf(s.ts);
            var bucket := if day in buckets then buckets[day] else [];
            BucketsMatch(buckets[day := bucket + [s.value]], samples + [s], c)
  {
    var day := c.dayOf(s.ts);
    assert (samples + [s])[..|samples|] == samples;
    DaysHaveValues(samples, day, c);
  }

  lemma {:induction false} NoBuckets(samples: seq<Sample>, c: Calendar)
    ensures BucketsMatch(map[], samples[..0], c)
  {
  }

  /** The first loop: every sample goes to the bucket of its day. */
  method FillBuckets(samples: seq<Sample>, c: Calendar) returns (buckets: map<Date, seq<real>>)
    ensures BucketsMatch(buckets, samples, c)
  {
    hide BucketsMatch;
    buckets := map[];
    NoBuckets(samples, c);
    for i := 0 to |samples|
      invariant BucketsMatch(buckets, samples[..i], c)
    {
      BucketsMatchStep(buckets, samples[..i], samples[i], c);
      assert samples[..i + 1] == samples[..i] + [samples[i]];
      var day := c.dayOf(samples[i].ts);
      var bucket := if day in buckets then buckets[day] else [];
      buckets := buckets[day := bucket + [samples[i].value]];
    }
    assert samples[..|samples|] == samples;
  }

  predicate EntryMatches(e: Daily, buckets: map<Date, seq<real>>, c: Calendar) {
    e.day in buckets && buckets[e.day] != [] && e == DayStats(e.day, buckets[e.day], c)
  }

  predicate EntriesMatch(out: seq<Daily>, buckets: map<Date, seq<real>>, c: Calendar) {
    forall i :: 0 <= i < |out| ==> EntryMatches(out[i], buckets, c)
  }

  function DaysOf(daily: seq<Daily>): seq<Date> {
    seq(|daily|, i requires 0 <= i < |daily| => daily[i].day)
  }

  /** The days done so far are all but those still to do, in order, and those still to do come later. */
  ghost predicate DaysSoFar(done: seq<Date>, todo: set<Date>, all: set<Date>) {
    && todo <= all
    && (forall i, j :: 0 <= i < j < |done| ==> done[i].number < done[j].number)
    && (forall i, d :: 0 <= i < |done| && d in todo ==> done[i].number < d.number)
    && (forall d :: d in done <==> d in all && d !in todo)
  }

  lemma {:induction false} DaysSoFarStep(done: seq<Date>, todo: set<Date>, all: set<Date>, day: Date)
    requires DaysSoFar(done, todo, all) && day in todo
    requires forall d :: d in todo ==> day.number <= d.number
    ensures DaysSoFar(done + [day], todo - {day}, all)
  {
  }

  lemma {:induction false} EverySampleHasItsDay(samples: seq<Sample>, c: Calendar, i: nat)
    requires i < |samples|
    ensures c.dayOf(samples[i].ts) in Days(samples, c)
    decreases |samples|
  {
    if i < |samples| - 1 {
      EverySampleHasItsDay(samples[..|samples| - 1], c, i);
    }
  }

  lemma {:induction false} DoneHasDay(out: seq<Daily>, samples: seq<Sample>, c: Calendar, i: nat)
    requires i < |samples| && forall d :: d in DaysOf(out) <==> d in Days(samples, c)
    ensures exists k :: 0 <= k < |out| && out[k].day == c.dayOf(samples[i].ts)
  {
    EverySampleHasItsDay(samples, c, i);
    hide Days;
    assert c.dayOf(samples[i].ts) in DaysOf(out);
    var k :| 0 <= k < |DaysOf(out)| && DaysOf(out)[k] == c.dayOf(samples[i].ts);
    assert out[k].day == DaysOf(out)[k];
  }

  lemma {:induction false} DoneEntry(out: seq<Daily>, samples: seq<Sample>, buckets: map<Date, seq<real>>, c: Calendar,
                                     k: nat)
    requires BucketsMatch(buckets, samples, c) && EntriesMatch(out, buckets, c) && k < |out|
    ensures IsEntryAt(out, k, samples, c)
  {
    hide ValuesOn, Days, Mean, MinOf, MaxOf;
    assert EntryMatches(out[k], buckets, c);
  }

  lemma {:induction false} DaysIncrease(out: seq<Daily>, todo: set<Date>, all: set<Date>)
    requires DaysSoFar(DaysOf(out), todo, all)
    ensures forall i, j :: 0 <= i < j < |out| ==> out[i].day.number < out[j].day.number
  {
    forall i, j | 0 <= i < j < |out| ensures out[i].day.number < out[j].day.number {
      assert DaysOf(out)[i].number < DaysOf(out)[j].number;
    }
  }

  lemma {:induction false} DailyDone(out: seq<Daily>, samples: seq<Sample>, buckets: map<Date, seq<real>>, c: Calendar)
    requires BucketsMatch(buckets, samples, c)
    requires EntriesMatch(out, buckets, c) && DaysSoFar(DaysOf(out), {}, buckets.Keys)
    ensures IsDaily(out, samples, c)
  {
    DaysIncrease(out, {}, buckets.Keys);
    forall d ensures d in DaysOf(out) <==> d in Days(samples, c) {
    }
    hide BucketsMatch, EntriesMatch, DaysSoFar, IsEntryAt, ValuesOn, Days, DaysOf;
    forall i | 0 <= i < |samples| ensures exists k :: 0 <= k < |out| && out[k].day == c.dayOf(samples[i].ts) {
      DoneHasDay(out, samples, c, i);
    }
    forall k | 0 <= k < |out| ensures IsEntryAt(out, k, samples, c) {
      DoneEntry(out, samples, buckets, c, k);
    }
  }

  /** `get_daily_stats`: fill the buckets, then go through the days in order. */
  method GetDailyStats(stored: seq<Sample>, now: real, days: int, source: string, c: Calendar)
    returns (out: seq<Daily>)
    ensures IsDaily(out, Since(stored, now - days as real * 86400.0, source), c)
  {
    var samples := Since(stored, now - days as real * 86400.0, source);
    var buckets := FillBuckets(samples, c);
    out := [];
    var todo := buckets.Keys;
    while todo != {}
      invariant EntriesMatch(out, buckets, c) && DaysSoFar(DaysOf(out), todo, buckets.Keys)
      decreases todo
    {
      var day := LeastDay(todo);
      DaysSoFarStep(DaysOf(out), todo, buckets.Keys, day);
      var entry := DayStats(day, buckets[day], c);
      assert DaysOf(out + [entry]) == DaysOf(out) + [day];
      assert EntryMatches(entry, buckets, c);
      out := out + [entry];
      todo := todo - {day};
    }
    DailyDone(out, samples, buckets, c);
  }

  // ---- The buckets partition the samples ----

  function TotalCount(daily: seq<Daily>): nat {
    if daily == [] then 0 else daily[0].count + TotalCount(daily[1..])
  }

  /** All values in the buckets of these days. */
  function InBuckets(days: seq<Date>, samples: seq<Sample>, c: Calendar): multiset<real> {
    if days == [] then multiset{} else multiset(ValuesOn(samples, days[0], c)) + InBuckets(days[1..], samples, c)
  }

  lemma {:induction false} DistinctTail(days: seq<Date>)
    requires days != [] && Distinct(days)
    ensures Distinct(days[1..]) && days[0] !in days[1..]
    ensures forall d :: d in days <==> d == days[0] || d in days[1..]
  {
    assert days == [days[0]] + days[1..];
  }

  lemma {:induction false} OneMoreSample(days: seq<Date>, samples: seq<Sample>, s: Sample, c: Calendar)
    requires Distinct(days)
    ensures InBuckets(days, samples + [s], c) ==
            InBuckets(days, samples, c) + if c.dayOf(s.ts) in days then multiset{s.value} else multiset{}
    decreases |days|
  {
    if days != [] {
      DistinctTail(days);
      OneMoreSample(days[1..], samples, s, c);
      assert (samples + [s])[..|samples|] == samples;
      var was := ValuesOn(samples, days[0], c);
      assert ValuesOn(samples + [s], days[0], c) == was + if c.dayOf(s.ts) == days[0] then [s.value] else [];
    }
  }

  lemma {:induction false} EmptyBuckets(days: seq<Date>, c: Calendar)
    ensures InBuckets(days, [], c) == multiset{}
    decreases |days|
  {
    if days != [] {
      EmptyBuckets(days[1..], c);
    }
  }

  predicate OnDays(samples: seq<Sample>, days: seq<Date>, c: Calendar) {
    forall i :: 0 <= i < |samples| ==> c.dayOf(samples[i].ts) in days
  }

  lemma {:induction false} OneMoreValue(samples: seq<Sample>, s: Sample)
    ensures multiset(Values(samples + [s])) == multiset(Values(samples)) + multiset{s.value}
  {
    assert (samples + [s])[..|samples|] == samples;
    assert Values(samples + [s]) == Values(samples) + [s.value];
  }

  lemma {:induction false} BucketsHoldAll(days: seq<Date>, samples: seq<Sample>, c: Calendar)
    requires Distinct(days) && OnDays(samples, days, c)
    ensures InBuckets(days, samples, c) == multiset(Values(samples))
    decreases |samples|
  {
    if samples == [] {
      EmptyBuckets(days, c);
    } else {
      var front, s := samples[..|samples| - 1], samples[|samples| - 1];
      assert front + [s] == samples;
      BucketsHoldAll(days, front, c);
      OneMoreSample(days, front, s, c);
      OneMoreValue(front, s);
    }
  }

  lemma {:induction false} BucketsUnfold(daily: seq<Daily>, samples: seq<Sample>, c: Calendar)
    requires daily != []
    ensures InBuckets(DaysOf(daily), samples, c) ==
            multiset(ValuesOn(samples, daily[0].day, c)) + InBuckets(DaysOf(daily[1..]), samples, c)
  {
    hide ValuesOn;
    assert DaysOf(daily)[1..] == DaysOf(daily[1..]);
  }

  lemma {:induction false} CountsAreSizes(daily: seq<Daily>, samples: seq<Sample>, c: Calendar)
    requires forall i :: 0 <= i < |daily| ==> daily[i].count == |ValuesOn(samples, daily[i].day, c)|
    ensures TotalCount(daily) == |InBuckets(DaysOf(daily), samples, c)|
    decreases |daily|
  {
    if daily != [] {
      hide ValuesOn;
      CountsAreSizes(daily[1..], samples, c);
      BucketsUnfold(daily, samples, c);
      hide InBuckets, DaysOf;
    }
  }

  /** The daily buckets hold every sample exactly once, and the daily counts add up to their number. */
  lemma {:induction false} BucketsPartition(daily: seq<Daily>, samples: seq<Sample>, c: Calendar)
    requires IsDaily(daily, samples, c)
    ensures InBuckets(DaysOf(daily), samples, c) == multiset(Values(samples))
    ensures TotalCount(daily) == |samples|
  {
    var days := DaysOf(daily);
    forall i | 0 <= i < |samples| ensures c.dayOf(samples[i].ts) in days {
      var k :| 0 <= k < |daily| && daily[k].day == c.dayOf(samples[i].ts);
      assert days[k] == c.dayOf(samples[i].ts);
    }
    BucketsHoldAll(days, samples, c);
    forall k | 0 <= k < |daily| ensures daily[k].count == |ValuesOn(samples, daily[k].day, c)| {
      EntryOf(daily, samples, c, k);
    }
    CountsAreSizes(daily, samples, c);
    assert |multiset(Values(samples))| == |Values(samples)|;
  }

  lemma {:induction false} DayValuesAreValues(samples: seq<Sample>, day: Date, c: Calendar)
    ensures forall v :: v in ValuesOn(samples, day, c) ==> v in Values(samples)
    decreases |samples|
  {
    if samples != [] {
      var front := samples[..|samples| - 1];
      DayValuesAreValues(front, day, c);
      assert Values(samples) == Values(front) + [samples[|samples| - 1].value];
    }
  }

  lemma {:induction false} ValueIsOnItsDay(samples: seq<Sample>, c: Calendar, i: nat)
    requires i < |samples|
    ensures samples[i].value in ValuesOn(samples, c.dayOf(samples[i].ts), c)
    decreases |samples|
  {
    if i < |samples| - 1 {
      ValueIsOnItsDay(samples[..|samples| - 1], c, i);
    }
  }

  lemma {:induction false} BucketOf(daily: seq<Daily>, samples: seq<Sample>, c: Calendar, v: real) returns (k: nat)
    requires IsDaily(daily, samples, c) && v in Values(samples)
    ensures k < |daily| && v in ValuesOn(samples, daily[k].day, c)
  {
    var i :| 0 <= i < |samples| && Values(samples)[i] == v;
    ValueIsOnItsDay(samples, c, i);
    k :| 0 <= k < |daily| && daily[k].day == c.dayOf(samples[i].ts);
  }

  lemma {:induction false} PartOfExtremes(part: seq<real>, all: seq<real>)
    requires part != [] && all != [] && forall v :: v in part ==> v in all
    ensures MinOf(all) <= MinOf(part) && MaxOf(part) <= MaxOf(all)
    ensures MinOf(all) in part ==> MinOf(part) == MinOf(all)
    ensures MaxOf(all) in part ==> MaxOf(part) == MaxOf(all)
  {
    assert MinOf(part) in all && MaxOf(part) in all;
  }

  lemma {:induction false} RoundsUp(c: Calendar, x: real, y: real)
    requires RoundsMonotonically(c) && x <= y
    ensures c.round(x) <= c.round(y)
  {
    assert RoundsInOrder(c, x, y);
  }

  lemma {:induction false} EntryWithin(daily: seq<Daily>, samples: seq<Sample>, c: Calendar, k: nat)
    requires IsDaily(daily, samples, c) && samples != [] && RoundsMonotonically(c) && k < |daily|
    ensures c.round(MinOf(Values(samples))) <= daily[k].min && daily[k].max <= c.round(MaxOf(Values(samples)))
    ensures MinOf(Values(samples)) in ValuesOn(samples, daily[k].day, c) ==>
              daily[k].min == c.round(MinOf(Values(samples)))
    ensures MaxOf(Values(samples)) in ValuesOn(samples, daily[k].day, c) ==>
              daily[k].max == c.round(MaxOf(Values(samples)))
  {
    EntryOf(daily, samples, c, k);
    DayValuesAreValues(samples, daily[k].day, c);
    hide IsDaily, ValuesOn, MinOf, MaxOf, Values, Mean, RoundsMonotonically;
    var part, all := ValuesOn(samples, daily[k].day, c), Values(samples);
    PartOfExtremes(part, all);
    RoundsUp(c, MinOf(all), MinOf(part));
    RoundsUp(c, MaxOf(part), MaxOf(all));
  }

  /** The least daily minimum and the greatest daily maximum are those of the whole window. */
  lemma {:induction false} ExtremesAgree(daily: seq<Daily>, samples: seq<Sample>, c: Calendar)
    requires IsDaily(daily, samples, c) && samples != [] && RoundsMonotonically(c)
    ensures (forall i :: 0 <= i < |daily| ==> c.round(MinOf(Values(samples))) <= daily[i].min)
    ensures exists i :: 0 <= i < |daily| && daily[i].min == c.round(MinOf(Values(samples)))
    ensures (forall i :: 0 <= i < |daily| ==> daily[i].max <= c.round(MaxOf(Values(samples))))
    ensures exists i :: 0 <= i < |daily| && daily[i].max == c.round(MaxOf(Values(samples)))
  {
    hide IsDaily, RoundsMonotonically, ValuesOn, MinOf, MaxOf, Values;
    forall i | 0 <= i < |daily|
      ensures c.round(MinOf(Values(samples))) <= daily[i].min && daily[i].max <= c.round(MaxOf(Values(samples)))
    {
      EntryWithin(daily, samples, c, i);
    }
    var k := BucketOf(daily, samples, c, MinOf(Values(samples)));
    EntryWithin(daily, samples, c, k);
    var m := BucketOf(daily, samples, c, MaxOf(Values(samples)));
    EntryWithin(daily, samples, c, m);
  }

  /** The least daily minimum, and the greatest daily maximum. */
  ghost predicate IsLeastDailyMin(daily: seq<Daily>, x: real) {
    (exists i :: 0 <= i < |daily| && daily[i].min == x) && forall i :: 0 <= i < |daily| ==> x <= daily[i].min
  }

  ghost predicate IsGreatestDailyMax(daily: seq<Daily>, x: real) {
    (exists i :: 0 <= i < |daily| && daily[i].max == x) && forall i :: 0 <= i < |daily| ==> daily[i].max <= x
  }

  lemma {:induction false} DailyExtremes(daily: seq<Daily>, samples: seq<Sample>, c: Calendar)
    requires IsDaily(daily, samples, c) && samples != [] && RoundsMonotonically(c)
    ensures IsLeastDailyMin(daily, c.round(MinOf(Values(samples))))
    ensures IsGreatestDailyMax(daily, c.round(MaxOf(Values(samples))))
  {
    hide IsDaily, RoundsMonotonically, Values, MinOf, MaxOf;
    ExtremesAgree(daily, samples, c);
  }

  // ---- Trends, which read the clock twice ----

  function Sources(samples: seq<Sample>): set<string> {
    set i | 0 <= i < |samples| && samples[i].source != "" :: samples[i].source
  }

  /** The least daily minimum is one value, so it is the trend's exactly when the two are equal. */
  lemma {:induction false} ExtremesAreUnique(daily: seq<Daily>, x: real, y: real)
    ensures IsLeastDailyMin(daily, x) ==> (IsLeastDailyMin(daily, y) <==> x == y)
    ensures IsGreatestDailyMax(daily, x) ==> (IsGreatestDailyMax(daily, y) <==> x == y)
  {
  }

  lemma {:induction false} LaterIsPart(stored: seq<Sample>, since: real, later: real, source: string, s: Sample)
    requires since <= later
    ensures s in Since(stored, later, source) <==> s in Since(stored, since, source) && s.ts >= later
    decreases |stored|
  {
    if stored != [] {
      LaterIsPart(stored[1..], since, later, source, s);
      SinceContains(stored, since, source, s);
      SinceContains(stored, later, source, s);
    }
  }

  lemma {:induction false} SinceContains(stored: seq<Sample>, since: real, source: string, s: Sample)
    requires stored != []
    ensures s in Since(stored, since, source) <==>
            (s == stored[0] && Selected(s, since, source)) || s in Since(stored[1..], since, source)
  {
  }

  /** A sample of the later selection that rounds to the same value. */
  ghost predicate StillThere(samples: seq<Sample>, x: real, c: Calendar) {
    exists i :: 0 <= i < |samples| && c.round(samples[i].value) == x
  }

  lemma {:induction false} ExtremesOf(samples: seq<Sample>) returns (i: nat, j: nat)
    requires samples != []
    ensures i < |samples| && samples[i].value == MinOf(Values(samples))
    ensures j < |samples| && samples[j].value == MaxOf(Values(samples))
    ensures forall s :: s in samples ==> MinOf(Values(samples)) <= s.value <= MaxOf(Values(samples))
  {
    var values := Values(samples);
    i :| 0 <= i < |values| && values[i] == MinOf(values);
    j :| 0 <= j < |values| && values[j] == MaxOf(values);
    forall s | s in samples ensures MinOf(values) <= s.value <= MaxOf(values) {
      var k :| 0 <= k < |samples| && samples[k] == s;
      assert values[k] in values;
    }
  }

  lemma {:induction false} SmallerPartExtremes(part: seq<Sample>, all: seq<Sample>, c: Calendar)
    requires part != [] && all != [] && RoundsMonotonically(c) && forall s :: s in part ==> s in all
    ensures c.round(MinOf(Values(part))) == c.round(MinOf(Values(all))) <==>
            StillThere(part, c.round(MinOf(Values(all))), c)
    ensures c.round(MaxOf(Values(part))) == c.round(MaxOf(Values(all))) <==>
            StillThere(part, c.round(MaxOf(Values(all))), c)
  {
    hide RoundsMonotonically, Values, MinOf, MaxOf;
    var i, j := ExtremesOf(part);
    var _, _ := ExtremesOf(all);
    var lo, hi := MinOf(Values(all)), MaxOf(Values(all));
    assert part[i] in part && part[j] in part;
    forall k | 0 <= k < |part|
      ensures c.round(lo) <= c.round(part[i].value) <= c.round(part[k].value)
      ensures c.round(part[k].value) <= c.round(part[j].value) <= c.round(hi)
    {
      assert part[k] in part;
      RoundsUp(c, lo, part[i].value);
      RoundsUp(c, part[i].value, part[k].value);
      RoundsUp(c, part[k].value, part[j].value);
      RoundsUp(c, part[j].value, hi);
    }
  }

  /**
   * The daily extremes of a trend are its minimum and maximum exactly when, up to rounding, the sample that has the
   * extreme value is still there at the second reading of the clock; with one reading they always are.
   */
  lemma {:induction false} DailyExtremesAgreeIff(stored: seq<Sample>, since: real, later: real, source: string,
                                                 daily: seq<Daily>, c: Calendar)
    requires since <= later && RoundsMonotonically(c) && Since(stored, since, source) != []
    requires IsDaily(daily, Since(stored, later, source), c)
    ensures var all, part := Since(stored, since, source), Since(stored, later, source);
            var lo, hi := c.round(MinOf(Values(all))), c.round(MaxOf(Values(all)));
            && (IsLeastDailyMin(daily, lo) <==> StillThere(part, lo, c))
            && (IsGreatestDailyMax(daily, hi) <==> StillThere(part, hi, c))
            && (since == later ==> IsLeastDailyMin(daily, lo) && IsGreatestDailyMax(daily, hi))
  {
    var all, part := Since(stored, since, source), Since(stored, later, source);
    var lo, hi := c.round(MinOf(Values(all))), c.round(MaxOf(Values(all)));
    if part == [] {
      NoDays(daily, c);
    } else {
      forall s ensures s in part ==> s in all {
        LaterIsPart(stored, since, later, source, s);
      }
      hide Since, IsDaily, RoundsMonotonically, Values, MinOf, MaxOf, IsLeastDailyMin, IsGreatestDailyMax, StillThere;
      SmallerPartExtremes(part, all, c);
      DailyExtremes(daily, part, c);
      ExtremesAreUnique(daily, c.round(MinOf(Values(part))), lo);
      ExtremesAreUnique(daily, c.round(MaxOf(Values(part))), hi);
    }
  }

  lemma {:induction false} NoDays(daily: seq<Daily>, c: Calendar)
    requires IsDaily(daily, [], c)
    ensures daily == []
  {
    if daily != [] {
      EntryOf(daily, [], c, 0);
    }
  }

  /** The trend holds the number, the rounded statistics, the end points and the named sources of the samples. */
  ghost predicate IsTrend(t: Trend, samples: seq<Sample>, c: Calendar)
    requires samples != []
  {
    var values := Values(samples);
    && t.count == |samples|
    && (forall x :: x in t.sources <==> x != "" && exists i :: 0 <= i < |samples| && samples[i].source == x)
    && t.min == Some(c.round(MinOf(values))) && t.max == Some(c.round(MaxOf(values)))
    && t.avg == Some(c.round(Mean(values)))
    && t.firstTs == Some(samples[0].ts) && t.lastTs == Some(samples[|samples| - 1].ts)
  }

  lemma {:induction false} TrendIsOf(samples: seq<Sample>, daily: seq<Daily>, c: Calendar)
    requires samples != []
    ensures var values := Values(samples);
            IsTrend(Trend(|values|, Sources(samples), Some(c.round(MinOf(values))), Some(c.round(MaxOf(values))),
                          Some(c.round(Mean(values))), Some(samples[0].ts), Some(samples[|samples| - 1].ts), daily),
                    samples, c)
  {
    hide MinOf, MaxOf, Mean;
  }

  /** `get_trend`: the samples are selected at one reading of the clock, the daily buckets at a later one. */
  method GetTrend(stored: seq<Sample>, now: real, later: real, days: int, source: string, c: Calendar)
    returns (t: Trend)
    ensures var samples := Since(stored, now - days as real * 86400.0, source);
            && (samples == [] ==> t == Trend(0, {}, None, None, None, None, None, []))
            && (samples != [] ==>
                  && IsTrend(t, samples, c)
                  && IsDaily(t.daily, Since(stored, later - days as real * 86400.0, source), c))
    ensures now == later && RoundsMonotonically(c) && t.count > 0 ==>
              TotalCount(t.daily) == t.count && IsLeastDailyMin(t.daily, t.min.value)
              && IsGreatestDailyMax(t.daily, t.max.value)
  {
    hide IsDaily, IsTrend, RoundsMonotonically, Since, Values, MinOf, MaxOf, Mean, Sources;
    hide IsLeastDailyMin, IsGreatestDailyMax;
    var samples := Since(stored, now - days as real * 86400.0, source);
    var daily := GetDailyStats(stored, later, days, source, c);
    if samples == [] {
      return Trend(0, {}, None, None, None, None, None, []);
    }
    if now == later && RoundsMonotonically(c) {
      BucketsPartition(daily, samples, c);
      DailyExtremes(daily, samples, c);
    }
    var values := Values(samples);
    t := Trend(|values|, Sources(samples), Some(c.round(MinOf(values))), Some(c.round(MaxOf(values))),
               Some(c.round(Mean(values))), Some(samples[0].ts), Some(samples[|samples| - 1].ts), daily);
    TrendIsOf(samples, daily, c);
  }

  /** A sample that leaves the window between the two readings of the clock. */
  ghost predicate DropsOut(stored: seq<Sample>, since: real, later: real, source: string) {
    exists i :: 0 <= i < |stored| && Selected(stored[i], since, source) && stored[i].ts < later
  }

  lemma {:induction false} LaterSelectsFewer(stored: seq<Sample>, since: real, later: real, source: string)
    requires since <= later
    ensures |Since(stored, later, source)| <= |Since(stored, since, source)|
    ensures |Since(stored, later, source)| == |Since(stored, since, source)| <==>
            !DropsOut(stored, since, later, source)
    decreases |stored|
  {
    if stored != [] {
      LaterSelectsFewer(stored[1..], since, later, source);
      assert forall i :: 0 < i < |stored| ==> stored[i] == stored[1..][i - 1];
      assert forall i :: 0 <= i < |stored[1..]| ==> stored[1..][i] == stored[i + 1];
    }
  }

  /**
   * The daily counts of a trend add up to its sample count exactly when no selected sample leaves the window between
   * the two readings of the clock; with one reading they always do.
   */
  lemma {:induction false} DailyCountsAddUpIff(stored: seq<Sample>, since: real, later: real, source: string,
                                               daily: seq<Daily>, c: Calendar)
    requires since <= later && IsDaily(daily, Since(stored, later, source), c)
    ensures TotalCount(daily) == |Since(stored, since, source)| <==> !DropsOut(stored, since, later, source)
    ensures since == later ==> TotalCount(daily) == |Since(stored, since, source)|
  {
    BucketsPartition(daily, Since(stored, later, source), c);
    LaterSelectsFewer(stored, since, later, source);
  }
}

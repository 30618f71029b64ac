/** Per-location estimation of the arrival rate lambda and the service rate
    mu from the charging sessions logged at one location: lambda is the
    reciprocal of the mean gap between consecutive session starts (after
    sorting by start), mu the reciprocal of the mean charging duration. */
module RateEstimator {
  import opened ErlangMath

  /** One logged charging session: its start on a common time axis and its
      charging duration, both in hours. */
  datatype Session = Session(start: real, hours: real)

  /** The estimated arrival rate (sessions per hour) and service rate
      (sessions one station completes per hour). */
  datatype Rates = Rates(lambda: real, mu: real)

  function Starts(log: seq<Session>): (ts: seq<real>)
    ensures |ts| == |log|
    ensures forall i :: 0 <= i < |log| ==> ts[i] == log[i].start
  {
    seq(|log|, i requires 0 <= i < |log| => log[i].start)
  }

  function Durations(log: seq<Session>): (ds: seq<real>)
    ensures |ds| == |log|
    ensures forall i :: 0 <= i < |log| ==> ds[i] == log[i].hours
  {
    seq(|log|, i requires 0 <= i < |log| => log[i].hours)
  }

  function Sum(xs: seq<real>): real
  {
    if |xs| == 0 then 0.0 else Sum(xs[..|xs| - 1]) + xs[|xs| - 1]
  }

  /** The arithmetic mean, as pandas' `mean` over a non-empty column. */
  function Mean(xs: seq<real>): real
    requires |xs| > 0
  {
    Sum(xs) / (|xs| as real)
  }

  predicate Sorted(ts: seq<real>)
  {
    forall i, j :: 0 <= i <= j < |ts| ==> ts[i] <= ts[j]
  }

  /** Inserts x into a sorted sequence, keeping it sorted; the new first
      element is the smaller of x and the old first element. */
  function Insert(x: real, ts: seq<real>): (r: seq<real>)
    requires Sorted(ts)
    ensures |r| == |ts| + 1
    ensures r[0] == if |ts| == 0 || x <= ts[0] then x else ts[0]
    ensures Sorted(r)
    ensures multiset(r) == multiset(ts) + multiset{x}
  {
    if |ts| == 0 then [x]
    else if x <= ts[0] then [x] + ts
    else
      assert ts == [ts[0]] + ts[1..];
      var rest := Insert(x, ts[1..]);
      assert ts[0] <= rest[0];
      SortedCons(ts[0], rest);
      [ts[0]] + rest
  }

  /** Putting an element no larger than the head in front of a sorted
      sequence keeps it sorted. */
  lemma SortedCons(x: real, ts: seq<real>)
    requires Sorted(ts) && |ts| > 0 && x <= ts[0]
    ensures Sorted([x] + ts)
  {
    var r := [x] + ts;
    forall i, j | 0 <= i <= j < |r|
      ensures r[i] <= r[j]
    {
      if i > 0 {
        assert r[i] == ts[i - 1] && r[j] == ts[j - 1];
      } else if j > 0 {
        assert r[j] == ts[j - 1];
      }
    }
  }

  /** Start times in ascending order, as `sort_values` leaves them; equal
      start times are indistinguishable, so stability does not matter. */
  function SortAscending(ts: seq<real>): (r: seq<real>)
    ensures |r| == |ts| && Sorted(r) && multiset(r) == multiset(ts)
  {
    if |ts| == 0 then []
    else
      assert ts == ts[..|ts| - 1] + [ts[|ts| - 1]];
      Insert(ts[|ts| - 1], SortAscending(ts[..|ts| - 1]))
  }

  /** Consecutive differences: what `diff()` yields once the leading gap,
      which has no predecessor and is skipped by `mean`, is dropped. */
  function Gaps(ts: seq<real>): (g: seq<real>)
    ensures |g| == if |ts| == 0 then 0 else |ts| - 1
    ensures forall i :: 0 <= i < |g| ==> g[i] == ts[i + 1] - ts[i]
  {
    if |ts| <= 1 then []
    else Gaps(ts[..|ts| - 1]) + [ts[|ts| - 1] - ts[|ts| - 2]]
  }

  /** The gaps between consecutive times add up to the total span. */
  lemma {:induction false} GapsTelescope(ts: seq<real>)
    requires |ts| >= 1
    ensures Sum(Gaps(ts)) == ts[|ts| - 1] - ts[0]
  {
    if |ts| == 1 {
    } else {
      var init := ts[..|ts| - 1];
      GapsTelescope(init);
      assert init[0] == ts[0] && init[|init| - 1] == ts[|ts| - 2];
      assert Gaps(ts) == Gaps(init) + [ts[|ts| - 1] - ts[|ts| - 2]];
      SumAppend(Gaps(init), ts[|ts| - 1] - ts[|ts| - 2]);
    }
  }

  lemma SumAppend(xs: seq<real>, x: real)
    ensures Sum(xs + [x]) == Sum(xs) + x
  {
    assert (xs + [x])[..|xs|] == xs;
  }

  /** The first and last of the sorted start times bound every start time
      and are themselves start times: they are the earliest and the latest
      session. */
  lemma SortedEnds(ts: seq<real>)
    requires |ts| >= 1
    ensures SortAscending(ts)[0] in ts && SortAscending(ts)[|ts| - 1] in ts
    ensures forall k :: 0 <= k < |ts| ==>
              SortAscending(ts)[0] <= ts[k] <= SortAscending(ts)[|ts| - 1]
  {
    var s := SortAscending(ts);
    assert s[0] in multiset(s) && s[|s| - 1] in multiset(s);
    forall k | 0 <= k < |ts|
      ensures s[0] <= ts[k] <= s[|s| - 1]
    {
      assert ts[k] in multiset(ts);
      assert ts[k] in s;
    }
  }

  /** The time between the earliest and the latest session start. */
  function Span(log: seq<Session>): real
  {
    var s := SortAscending(Starts(log));
    if |s| == 0 then 0.0 else s[|s| - 1] - s[0]
  }

  /** The source produces finite, positive rates only for at least two
      sessions spread over a positive time span with a positive total
      charging time; otherwise its means are empty, zero or negative. */
  predicate Estimable(log: seq<Session>)
  {
    |log| >= 2 && Span(log) > 0.0 && Sum(Durations(log)) > 0.0
  }

  /** The gaps between the sorted starts of a log add up to its span. */
  lemma GapsSumToSpan(log: seq<Session>)
    requires |log| >= 1
    ensures |Gaps(SortAscending(Starts(log)))| == |log| - 1
    ensures Sum(Gaps(SortAscending(Starts(log)))) == Span(log)
  {
    GapsTelescope(SortAscending(Starts(log)));
  }

  /** A count of events per unit of time, count/total. */
  function PerHour(count: nat, total: real): real
    requires total > 0.0
  {
    count as real / total
  }

  /** lambda = 1/mean(gaps of the sorted starts); the mean gap telescopes,
      so lambda = (n - 1)/span. */
  function ArrivalRate(log: seq<Session>): (lambda: real)
    requires Estimable(log)
    ensures lambda > 0.0
    ensures lambda == PerHour(|log| - 1, Span(log))
  {
    MeanGapIsSpanPerGap(log);
    1.0 / Mean(Gaps(SortAscending(Starts(log))))
  }

  /** The reciprocal of the mean gap is (n - 1)/span. */
  lemma MeanGapIsSpanPerGap(log: seq<Session>)
    requires Estimable(log)
    ensures |Gaps(SortAscending(Starts(log)))| > 0
    ensures Mean(Gaps(SortAscending(Starts(log)))) > 0.0
    ensures 1.0 / Mean(Gaps(SortAscending(Starts(log)))) > 0.0
    ensures 1.0 / Mean(Gaps(SortAscending(Starts(log)))) == PerHour(|log| - 1, Span(log))
  {
    GapsSumToSpan(log);
    ReciprocalMean(Gaps(SortAscending(Starts(log))), Span(log));
  }

  /** mu = 1/mean(durations) = n/total charging time. */
  function ServiceRate(log: seq<Session>): (mu: real)
    requires Estimable(log)
    ensures mu > 0.0
    ensures mu == PerHour(|log|, Sum(Durations(log)))
  {
    ReciprocalMean(Durations(log), Sum(Durations(log)));
    1.0 / Mean(Durations(log))
  }

  /** Both rates of one location: lambda = (n - 1)/span of the starts and
      mu = n/total charging time. */
  function EstimateRates(log: seq<Session>): (r: Rates)
    requires Estimable(log)
    ensures r.lambda > 0.0 && r.mu > 0.0
    ensures r.lambda == PerHour(|log| - 1, Span(log))
    ensures r.mu == PerHour(|log|, Sum(Durations(log)))
  {
    Rates(ArrivalRate(log), ServiceRate(log))
  }

  /** The reciprocal of the mean of n values totalling t > 0 is n/t. */
  lemma ReciprocalMean(xs: seq<real>, total: real)
    requires |xs| > 0 && Sum(xs) == total && total > 0.0
    ensures Mean(xs) > 0.0
    ensures 1.0 / Mean(xs) > 0.0
    ensures 1.0 / Mean(xs) == PerHour(|xs|, total)
  {
    DivPositive(Sum(xs), |xs| as real);
    DivCancel(Sum(xs), |xs| as real);
    DivPositive(1.0, Mean(xs));
    DivCancel(1.0, Mean(xs));
    assert (1.0 / Mean(xs)) * Sum(xs)
        == ((1.0 / Mean(xs)) * Mean(xs)) * (|xs| as real);
    DivUnique(|xs| as real, total, 1.0 / Mean(xs));
  }

  /** A two-session log spans the distance between its two start times,
      whichever order they were logged in. */
  lemma SpanOfTwo(log: seq<Session>)
    requires |log| == 2
    ensures Span(log) == if log[0].start <= log[1].start
                         then log[1].start - log[0].start
                         else log[0].start - log[1].start
  {
    SortedEnds(Starts(log));
  }

  /** The total charging time of a two-session log. */
  lemma DurationOfTwo(log: seq<Session>)
    requires |log| == 2
    ensures Sum(Durations(log)) == log[0].hours + log[1].hours
  {
    var ds := Durations(log);
    assert ds[..1][..0] == [];
    assert Sum(ds[..1]) == ds[0];
  }

  /** Two sessions an hour apart, each charging for half an hour: one
      arrival and two services per hour. */
  lemma TwoSessionExample()
    ensures Estimable([Session(8.0, 0.5), Session(9.0, 0.5)])
    ensures EstimateRates([Session(8.0, 0.5), Session(9.0, 0.5)]) == Rates(1.0, 2.0)
  {
    var log := [Session(8.0, 0.5), Session(9.0, 0.5)];
    SpanOfTwo(log);
    DurationOfTwo(log);
    assert PerHour(1, 1.0) == 1.0 && PerHour(2, 1.0) == 2.0;
  }

  /** The same two sessions logged in the opposite order give the same
      rates: the starts are sorted before the gaps are taken. */
  lemma ReversedLogExample()
    ensures Estimable([Session(9.0, 0.5), Session(8.0, 0.5)])
    ensures EstimateRates([Session(9.0, 0.5), Session(8.0, 0.5)]) == Rates(1.0, 2.0)
  {
    var log := [Session(9.0, 0.5), Session(8.0, 0.5)];
    SpanOfTwo(log);
    DurationOfTwo(log);
    assert PerHour(1, 1.0) == 1.0 && PerHour(2, 1.0) == 2.0;
  }

  /** Two sessions an hour apart charging for 24 minutes each: one arrival
      and two and a half services per hour. */
  lemma ShortSessionExample()
    ensures Estimable([Session(8.0, 0.4), Session(9.0, 0.4)])
    ensures EstimateRates([Session(8.0, 0.4), Session(9.0, 0.4)]) == Rates(1.0, 2.5)
  {
    var log := [Session(8.0, 0.4), Session(9.0, 0.4)];
    SpanOfTwo(log);
    DurationOfTwo(log);
    assert PerHour(1, 1.0) == 1.0 && PerHour(2, 0.8) == 2.5;
  }
}

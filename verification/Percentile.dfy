/**
  Nearest-rank percentiles and the latency summary: tools/capacity/run_phase6_acceptance.py, and the
  percentile of tools/capacity/run_b4_local_diagnostics.py. Numbers are exact; rounding is a given
  function of which only monotonicity is used.
 */
module Percentile {
  import opened Options
  import opened TableSort

  function Difference(a: real, b: real): real {
    a - b
  }

  /** `sorted(values)` */
  function SortedValues(values: seq<real>): seq<real> {
    ArraySort(values, Difference)
  }

  /** `math.ceil` */
  function Ceil(x: real): int {
    -(-x).Floor
  }

  function Max(a: int, b: int): int {
    if a < b then b else a
  }

  function Min(a: int, b: int): int {
    if a < b then a else b
  }

  lemma SortedLength(values: seq<real>)
    ensures |SortedValues(values)| == |values|
  {
    SortKeeps(values, Difference);
    assert |multiset(SortedValues(values))| == |multiset(values)|;
  }

  function Index(n: nat, fraction: real): (index: int)
    requires n > 0
    ensures 0 <= index < n
  {
    Max(0, Min(n - 1, Ceil(n as real * fraction) - 1))
  }

  /** The sample at the nearest rank, before rounding. */
  function Sample(values: seq<real>, fraction: real): real
    requires values != []
  {
    SortedLength(values);
    SortedValues(values)[Index(|values|, fraction)]
  }

  /** `_percentile` with a fraction; no value for no samples. */
  function ByFraction(values: seq<real>, fraction: real, round: real -> real): Option<real> {
    if values == [] then None else Some(round(Sample(values, fraction)))
  }

  function IndexOfPercent(n: nat, percent: real): (index: int)
    requires n > 0
    ensures 0 <= index < n
  {
    Max(0, Min(n - 1, Ceil(n as real * percent / 100.0) - 1))
  }

  /** `_percentile` with a percentage; None stands for the error raised for no samples. */
  function ByPercent(values: seq<real>, percent: real, round: real -> real): Option<real> {
    SortedLength(values);
    if values == [] then None else Some(round(SortedValues(values)[IndexOfPercent(|values|, percent)]))
  }

  /** Both versions give the same figure. */
  lemma VersionsAgree(values: seq<real>, percent: real, round: real -> real)
    ensures ByPercent(values, percent, round) == ByFraction(values, percent / 100.0, round)
  {
    if values != [] {
      assert |values| as real * percent / 100.0 == |values| as real * (percent / 100.0);
    }
  }

  // ---- What the nearest rank is ----

  function AtMost(values: seq<real>, v: real): nat {
    if values == [] then 0 else (if values[0] <= v then 1 else 0) + AtMost(values[1..], v)
  }

  function Below(values: seq<real>, v: real): nat {
    if values == [] then 0 else (if values[0] < v then 1 else 0) + Below(values[1..], v)
  }

  lemma {:induction false} CountsInserted(x: real, s: seq<real>, v: real)
    ensures AtMost(Insert(x, s, Difference), v) == AtMost([x] + s, v)
    ensures Below(Insert(x, s, Difference), v) == Below([x] + s, v)
  {
    assert ([x] + s)[1..] == s;
    if s != [] && x > s[0] {
      CountsInserted(x, s[1..], v);
      var r := [s[0]] + Insert(x, s[1..], Difference);
      assert Insert(x, s, Difference) == r && r[1..] == Insert(x, s[1..], Difference);
      assert ([x] + s[1..])[1..] == s[1..];
    }
  }

  lemma {:induction false} CountsSorted(values: seq<real>, v: real)
    ensures AtMost(SortedValues(values), v) == AtMost(values, v)
    ensures Below(SortedValues(values), v) == Below(values, v)
  {
    if values != [] {
      var rest := SortedValues(values[1..]);
      CountsSorted(values[1..], v);
      CountsInserted(values[0], rest, v);
      assert ([values[0]] + rest)[1..] == rest;
    }
  }

  predicate Ascending(s: seq<real>) {
    forall i, j :: 0 <= i < j < |s| ==> s[i] <= s[j]
  }

  lemma SortedAscending(values: seq<real>)
    ensures Ascending(SortedValues(values))
  {
    SortAscends(values, Difference);
    var s := SortedValues(values);
    forall i, j | 0 <= i < j < |s| ensures s[i] <= s[j] {
      assert Difference(s[i], s[j]) <= 0.0;
    }
  }

  lemma {:induction false} CountsInOrder(s: seq<real>, k: nat)
    requires Ascending(s) && k < |s|
    ensures AtMost(s, s[k]) > k && Below(s, s[k]) <= k
  {
    if k == 0 {
      NothingBelow(s, s[0]);
    } else {
      CountsInOrder(s[1..], k - 1);
    }
  }

  lemma {:induction false} NothingBelow(s: seq<real>, v: real)
    requires forall i :: 0 <= i < |s| ==> v <= s[i]
    ensures Below(s, v) == 0
  {
    if s != [] {
      NothingBelow(s[1..], v);
    }
  }

  lemma {:induction false} CountsGrow(values: seq<real>, v: real, w: real)
    requires v < w
    ensures AtMost(values, v) <= Below(values, w)
  {
    if values != [] {
      CountsGrow(values[1..], v, w);
    }
  }

  /** The rank asked for, kept between 1 and the number of samples. */
  function Rank(n: nat, fraction: real): int {
    Max(1, Min(n, Ceil(n as real * fraction)))
  }

  /** For a fraction above 0 and up to 1 the rank is ceil(n * fraction). */
  lemma RankOfFraction(n: nat, fraction: real)
    requires n > 0 && 0.0 < fraction <= 1.0
    ensures Rank(n, fraction) == Ceil(n as real * fraction)
  {
    var x := n as real * fraction;
    assert 0.0 < x <= n as real;
    assert (-x).Floor <= -1;
    assert -(n as int) <= (-x).Floor;
  }

  /** The nearest-rank sample is the one sample with at least rank many at or below it and fewer below it. */
  lemma SampleIff(values: seq<real>, fraction: real, v: real)
    requires values != []
    ensures v == Sample(values, fraction) <==>
      v in values && AtMost(values, v) >= Rank(|values|, fraction) > Below(values, v)
  {
    var s, k, r := SortedValues(values), Index(|values|, fraction), Rank(|values|, fraction);
    SortedLength(values);
    SortedAscending(values);
    CountsInOrder(s, k);
    CountsSorted(values, s[k]);
    SortKeeps(values, Difference);
    assert s[k] in multiset(values);
    assert k == r - 1;
    if v < s[k] {
      CountsGrow(values, v, s[k]);
    } else if s[k] < v {
      CountsGrow(values, s[k], v);
    }
  }

  // ---- The summary ----

  datatype RequestResult = RequestResult(latency: real, status: string, responseBytes: nat, errorType: Option<string>)

  datatype Summary = Summary(samples: nat, p50: Option<real>, p95: Option<real>, p99: Option<real>, min: Option<real>, max: Option<real>,
                             averageBytes: real, statuses: multiset<string>, timeouts: nat, errors: multiset<string>)

  function Latencies(results: seq<RequestResult>): (r: seq<real>)
    ensures |r| == |results|
  {
    seq(|results|, i requires 0 <= i < |results| => results[i].latency)
  }

  function Statuses(results: seq<RequestResult>): multiset<string> {
    if results == [] then multiset{} else Statuses(results[..|results| - 1]) + multiset{results[|results| - 1].status}
  }

  function Errors(results: seq<RequestResult>): multiset<string> {
    if results == [] then multiset{}
    else
      var last := results[|results| - 1].errorType;
      Errors(results[..|results| - 1]) + if last.Some? then multiset{last.value} else multiset{}
  }

  function TotalBytes(results: seq<RequestResult>): nat {
    if results == [] then 0 else results[0].responseBytes + TotalBytes(results[1..])
  }

  function Least(values: seq<real>): (v: real)
    requires values != []
    ensures v in values && forall w :: w in values ==> v <= w
  {
    if |values| == 1 then values[0]
    else
      var rest := Least(values[1..]);
      assert values == [values[0]] + values[1..];
      if values[0] < rest then values[0] else rest
  }

  function Greatest(values: seq<real>): (v: real)
    requires values != []
    ensures v in values && forall w :: w in values ==> w <= v
  {
    if |values| == 1 then values[0]
    else
      var rest := Greatest(values[1..]);
      assert values == [values[0]] + values[1..];
      if values[0] > rest then values[0] else rest
  }

  /** `_summarize`; `roundMean` rounds to one digit, `round` to three. */
  function Summarize(results: seq<RequestResult>, round: real -> real, roundMean: real -> real): Summary {
    var latencies := Latencies(results);
    Summary(
      |results|,
      ByFraction(latencies, 0.50, round),
      ByFraction(latencies, 0.95, round),
      ByFraction(latencies, 0.99, round),
      if latencies == [] then None else Some(round(Least(latencies))),
      if latencies == [] then None else Some(round(Greatest(latencies))),
      if results == [] then 0.0 else roundMean(TotalBytes(results) as real / |results| as real),
      Statuses(results),
      Statuses(results)["timeout"],
      Errors(results))
  }

  ghost predicate Monotone(round: real -> real) {
    forall x, y :: x <= y ==> round(x) <= round(y)
  }

  lemma IndexGrows(n: nat, p: real, q: real)
    requires n > 0 && p <= q
    ensures Index(n, p) <= Index(n, q)
  {
    var m := n as real;
    ProductGrows(m, p, q);
    CeilGrows(m * p, m * q);
  }

  lemma ProductGrows(m: real, p: real, q: real)
    requires m > 0.0 && p <= q
    ensures m * p <= m * q
  {
    if p < q {
      PositiveProduct(m, q - p);
      assert m * q == m * p + m * (q - p);
    }
  }

  lemma PositiveProduct(a: real, b: real)
    requires a > 0.0 && b > 0.0
    ensures a * b > 0.0
  {
  }

  lemma CeilGrows(x: real, y: real)
    requires x <= y
    ensures Ceil(x) <= Ceil(y)
  {
  }

  /** A larger fraction never picks a smaller sample. */
  lemma SamplesAscend(values: seq<real>, p: real, q: real)
    requires values != [] && p <= q
    ensures Sample(values, p) <= Sample(values, q)
  {
    hide Index, SortedValues;
    SortedLength(values);
    SortedAscending(values);
    IndexGrows(|values|, p, q);
  }

  /** Which samples the summary reports: for half, 95 and 99 percent the one that has at least so many
      samples, rounded up, at or below it and fewer below; and a least and a greatest one. */
  lemma SummaryFigures(results: seq<RequestResult>, round: real -> real, roundMean: real -> real)
    requires results != []
    ensures var values, s := Latencies(results), Summarize(results, round, roundMean);
      && s.samples == |results|
      && IsFigure(values, 0.5, round, s.p50) && IsFigure(values, 0.95, round, s.p95) && IsFigure(values, 0.99, round, s.p99)
      && (exists v :: v in values && (forall w :: w in values ==> v <= w) && s.min == Some(round(v)))
      && (exists v :: v in values && (forall w :: w in values ==> w <= v) && s.max == Some(round(v)))
  {
    var values := Latencies(results);
    hide ByFraction, IsFigure, Statuses, Errors, TotalBytes;
    FigureAt(values, 0.5, round);
    FigureAt(values, 0.95, round);
    FigureAt(values, 0.99, round);
    assert Least(values) in values && Greatest(values) in values;
  }

  /** The rounding of a sample with at least so many samples, rounded up, at or below it and fewer below it. */
  ghost predicate IsFigure(values: seq<real>, fraction: real, round: real -> real, figure: Option<real>) {
    exists v :: v in values && AtMost(values, v) >= Ceil(|values| as real * fraction) > Below(values, v) && figure == Some(round(v))
  }

  lemma FigureAt(values: seq<real>, fraction: real, round: real -> real)
    requires values != [] && 0.0 < fraction <= 1.0
    ensures IsFigure(values, fraction, round, ByFraction(values, fraction, round))
  {
    hide Sample, AtMost, Below;
    SampleIff(values, fraction, Sample(values, fraction));
    RankOfFraction(|values|, fraction);
  }

  /** Requests that timed out are counted as such. */
  lemma SummaryTimeouts(results: seq<RequestResult>, round: real -> real, roundMean: real -> real)
    ensures Summarize(results, round, roundMean).timeouts == |WithStatus(results, "timeout")|
  {
    StatusCounts(results, "timeout");
    hide WithStatus, Statuses;
  }

  /** The average is the rounded number that, taken once per result, gives the total of the response sizes. */
  lemma SummaryMean(results: seq<RequestResult>, round: real -> real, roundMean: real -> real)
    requires results != []
    ensures exists mean :: Summarize(results, round, roundMean).averageBytes == roundMean(mean) &&
                           mean * |results| as real == TotalBytes(results) as real
  {
    hide TotalBytes, Latencies, ByFraction, Statuses, Errors, Least, Greatest;
    var mean := TotalBytes(results) as real / |results| as real;
    assert Summarize(results, round, roundMean).averageBytes == roundMean(mean);
    QuotientTimes(TotalBytes(results) as real, |results| as real);
  }

  lemma QuotientTimes(a: real, b: real)
    requires b > 0.0
    ensures a / b * b == a
  {
  }

  lemma {:induction false} TotalOfConcat(a: seq<RequestResult>, b: seq<RequestResult>)
    ensures TotalBytes(a + b) == TotalBytes(a) + TotalBytes(b)
  {
    if a == [] {
      assert a + b == b;
    } else {
      assert (a + b)[1..] == a[1..] + b && (a + b)[0] == a[0];
      TotalOfConcat(a[1..], b);
    }
  }

  lemma TotalOfOne(result: RequestResult)
    ensures TotalBytes([result]) == result.responseBytes
  {
  }

  /** After rounding, the reported figures stand in order. */
  lemma SummaryInOrder(results: seq<RequestResult>, round: real -> real, roundMean: real -> real)
    requires results != [] && Monotone(round)
    ensures var s := Summarize(results, round, roundMean);
      s.min.Some? && s.p50.Some? && s.p95.Some? && s.p99.Some? && s.max.Some? &&
      s.min.value <= s.p50.value <= s.p95.value <= s.p99.value <= s.max.value
  {
    var values := Latencies(results);
    hide Sample, Statuses, Errors, TotalBytes, AtMost, Below;
    SampleIff(values, 0.50, Sample(values, 0.50));
    SampleIff(values, 0.99, Sample(values, 0.99));
    SamplesAscend(values, 0.50, 0.95);
    SamplesAscend(values, 0.95, 0.99);
  }

  function WithStatus(results: seq<RequestResult>, status: string): set<int> {
    set i | 0 <= i < |results| && results[i].status == status
  }

  function WithError(results: seq<RequestResult>, error: string): set<int> {
    set i | 0 <= i < |results| && results[i].errorType == Some(error)
  }

  lemma WithStatusStep(results: seq<RequestResult>, status: string)
    requires results != []
    ensures var n := |results| - 1;
      |WithStatus(results, status)| == |WithStatus(results[..n], status)| + if results[n].status == status then 1 else 0
  {
    var n := |results| - 1;
    assert WithStatus(results, status) == WithStatus(results[..n], status) + if results[n].status == status then {n} else {};
  }

  lemma WithErrorStep(results: seq<RequestResult>, error: string)
    requires results != []
    ensures var n := |results| - 1;
      |WithError(results, error)| == |WithError(results[..n], error)| + if results[n].errorType == Some(error) then 1 else 0
  {
    var n := |results| - 1;
    assert WithError(results, error) == WithError(results[..n], error) + if results[n].errorType == Some(error) then {n} else {};
  }

  /** Every result is counted once under its status. */
  lemma {:induction false} StatusCounts(results: seq<RequestResult>, status: string)
    ensures Statuses(results)[status] == |WithStatus(results, status)|
    ensures |Statuses(results)| == |results|
  {
    if results != [] {
      WithStatusStep(results, status);
      StatusCounts(results[..|results| - 1], status);
      hide WithStatus;
    }
  }

  /** Every result with an error is counted once under it. */
  lemma {:induction false} ErrorCounts(results: seq<RequestResult>, error: string)
    ensures Errors(results)[error] == |WithError(results, error)|
  {
    if results != [] {
      WithErrorStep(results, error);
      ErrorCounts(results[..|results| - 1], error);
      hide WithError;
    }
  }
}

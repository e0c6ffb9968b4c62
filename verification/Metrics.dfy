/** Request latencies: a sliding window of samples per route, and nearest-rank percentiles over it. */
module Metrics {

  // ----- the window

  type Samples = map<string, seq<real>>

  datatype Config = Config(enabled: bool, maxSamples: nat)

  datatype Op = Record(routeKey: string, durationMs: real) | Flush

  function Bucket(samples: Samples, routeKey: string): seq<real> {
    if routeKey in samples then samples[routeKey] else []
  }

  function Push(bucket: seq<real>, x: real, maxSamples: nat): seq<real> {
    var pushed := bucket + [x];
    if |pushed| > maxSamples then pushed[1..] else pushed
  }

  function Step(c: Config, samples: Samples, op: Op): Samples {
    match op
    case Record(routeKey, x) =>
      if c.enabled then samples[routeKey := Push(Bucket(samples, routeKey), x, c.maxSamples)] else samples
    case Flush => map[]
  }

  function Run(c: Config, ops: seq<Op>): Samples {
    if |ops| == 0 then map[] else Step(c, Run(c, ops[..|ops| - 1]), ops[|ops| - 1])
  }

  /** The durations recorded for a route since the last flush. */
  function SinceFlush(ops: seq<Op>, routeKey: string): seq<real> {
    if |ops| == 0 then []
    else
      var before := SinceFlush(ops[..|ops| - 1], routeKey);
      match ops[|ops| - 1]
      case Flush => []
      case Record(key, x) => if key == routeKey then before + [x] else before
  }

  function Last(xs: seq<real>, n: nat): seq<real> {
    if |xs| <= n then xs else xs[|xs| - n..]
  }

  /** After any run a bucket holds exactly the last `maxSamples` durations since the last flush. */
  lemma {:induction false} WindowIsLastSamples(c: Config, ops: seq<Op>, routeKey: string)
    requires c.enabled
    ensures Bucket(Run(c, ops), routeKey) == Last(SinceFlush(ops, routeKey), c.maxSamples)
  {
    if |ops| > 0 {
      WindowIsLastSamples(c, ops[..|ops| - 1], routeKey);
    }
  }

  // ----- sorting

  ghost predicate Ascending(xs: seq<real>) {
    forall i, j :: 0 <= i < j < |xs| ==> xs[i] <= xs[j]
  }

  function Insert(xs: seq<real>, y: real): seq<real> {
    if |xs| == 0 || y <= xs[0] then [y] + xs else [xs[0]] + Insert(xs[1..], y)
  }

  function Sort(xs: seq<real>): seq<real> {
    if |xs| == 0 then [] else Insert(Sort(xs[1..]), xs[0])
  }

  function CountAtMost(xs: seq<real>, x: real): nat {
    if |xs| == 0 then 0 else (if xs[0] <= x then 1 else 0) + CountAtMost(xs[1..], x)
  }

  lemma {:induction false} InsertPermutes(xs: seq<real>, y: real)
    ensures multiset(Insert(xs, y)) == multiset(xs) + multiset{y}
  {
    if |xs| > 0 && y > xs[0] {
      InsertPermutes(xs[1..], y);
      assert xs == [xs[0]] + xs[1..];
    }
  }

  lemma {:induction false} InsertSorts(xs: seq<real>, y: real)
    requires Ascending(xs)
    ensures Ascending(Insert(xs, y))
    ensures Insert(xs, y)[0] == if |xs| == 0 || y <= xs[0] then y else xs[0]
  {
    if |xs| > 0 && y > xs[0] {
      InsertSorts(xs[1..], y);
      var tail := Insert(xs[1..], y);
      assert forall j :: 0 <= j < |tail| ==> xs[0] <= tail[0] <= tail[j];
    }
  }

  lemma {:induction false} SortSorts(xs: seq<real>)
    ensures Ascending(Sort(xs)) && multiset(Sort(xs)) == multiset(xs) && |Sort(xs)| == |xs|
  {
    if |xs| > 0 {
      SortSorts(xs[1..]);
      InsertSorts(Sort(xs[1..]), xs[0]);
      InsertPermutes(Sort(xs[1..]), xs[0]);
      assert xs == [xs[0]] + xs[1..];
      assert |multiset(Sort(xs))| == |multiset(xs)|;
    }
  }

  lemma {:induction false} CountAfterInsert(xs: seq<real>, y: real, x: real)
    ensures CountAtMost(Insert(xs, y), x) == CountAtMost(xs, x) + if y <= x then 1 else 0
  {
    if |xs| > 0 && y > xs[0] {
      CountAfterInsert(xs[1..], y, x);
    } else {
      assert ([y] + xs)[1..] == xs;
    }
  }

  lemma {:induction false} SortKeepsCounts(xs: seq<real>, x: real)
    ensures CountAtMost(Sort(xs), x) == CountAtMost(xs, x)
  {
    if |xs| > 0 {
      SortKeepsCounts(xs[1..], x);
      CountAfterInsert(Sort(xs[1..]), xs[0], x);
    }
  }

  /** In an ascending list more than k entries are at most x exactly when entry k is. */
  lemma {:induction false} RankInSorted(xs: seq<real>, k: nat, x: real)
    requires Ascending(xs) && k < |xs|
    ensures CountAtMost(xs, x) > k <==> xs[k] <= x
  {
    if k > 0 {
      RankInSorted(xs[1..], k - 1, x);
      if xs[0] > x {
        NoneAtMost(xs[1..], x);
      }
    } else if xs[0] > x {
      NoneAtMost(xs, x);
    }
  }

  lemma {:induction false} NoneAtMost(xs: seq<real>, x: real)
    requires forall i :: 0 <= i < |xs| ==> xs[i] > x
    ensures CountAtMost(xs, x) == 0
  {
    if |xs| > 0 {
      NoneAtMost(xs[1..], x);
    }
  }

  // ----- percentiles

  function Ceil(x: real): int {
    -(-x).Floor
  }

  /** `Math.round`: halves go up. */
  function Round(x: real): int {
    (x + 0.5).Floor
  }

  function Position(n: nat, rank: int): (k: nat)
    requires n > 0
    ensures k < n
  {
    var atLeast := if rank < 1 then 0 else rank - 1;
    if atLeast < n - 1 then atLeast else n - 1
  }

  function Rank(n: nat, quantile: real): int {
    Ceil(n as real * quantile)
  }

  /** The sample that is reported, before rounding. */
  function Selected(sorted: seq<real>, quantile: real): real
    requires |sorted| > 0
  {
    sorted[Position(|sorted|, Rank(|sorted|, quantile))]
  }

  function Percentile(sorted: seq<real>, quantile: real): int {
    if |sorted| == 0 then 0 else Round(Selected(sorted, quantile))
  }

  lemma {:induction false} SampleAtRank(values: seq<real>, rank: int, x: real)
    requires 1 <= rank <= |values|
    ensures |Sort(values)| == |values|
    ensures var v := Sort(values)[Position(|values|, rank)];
      v in values && (v <= x <==> CountAtMost(values, x) >= rank)
  {
    SortSorts(values);
    SortKeepsCounts(values, x);
    RankInSorted(Sort(values), rank - 1, x);
    assert Sort(values)[rank - 1] in multiset(values);
  }

  /** The selected sample is the least number with at least ceil(q * n) samples at or below it. */
  lemma PercentileIsNearestRank(values: seq<real>, quantile: real, x: real)
    requires |values| > 0 && 0.0 < quantile <= 1.0
    ensures |Sort(values)| == |values|
    ensures var v := Selected(Sort(values), quantile);
      v in values && (v <= x <==> CountAtMost(values, x) >= Rank(|values|, quantile))
  {
    RankInRange(|values|, quantile);
    SampleAtRank(values, Rank(|values|, quantile), x);
  }

  lemma CeilMonotone(x: real, y: real)
    requires x <= y
    ensures Ceil(x) <= Ceil(y)
  {
  }

  lemma RankInRange(n: nat, quantile: real)
    requires n > 0 && 0.0 < quantile <= 1.0
    ensures 1 <= Rank(n, quantile) <= n
  {
    var x := n as real * quantile;
    assert 0.0 < x <= n as real;
    CeilMonotone(x, n as real);
  }

  lemma RankMonotone(n: nat, p: real, q: real)
    requires p <= q
    ensures Rank(n, p) <= Rank(n, q)
  {
    assert n as real * (q - p) >= 0.0;
    CeilMonotone(n as real * p, n as real * q);
  }

  lemma {:induction false} PercentilesOrdered(values: seq<real>, p: real, q: real)
    requires p <= q
    ensures Percentile(Sort(values), p) <= Percentile(Sort(values), q)
  {
    SortSorts(values);
    if |values| > 0 {
      RankMonotone(|values|, p, q);
    }
  }

  // ----- the service

  datatype Report = Report(route: string, count: nat, p50: int, p95: int, p99: int)

  function ReportFor(route: string, values: seq<real>): (r: Report)
    ensures r.p50 <= r.p95 <= r.p99
  {
    var sorted := Sort(values);
    PercentilesOrdered(values, 0.5, 0.95);
    PercentilesOrdered(values, 0.95, 0.99);
    Report(route, |values|, Percentile(sorted, 0.5), Percentile(sorted, 0.95), Percentile(sorted, 0.99))
  }

  /** The samples at or below a number, among the first `n`. */
  ghost function AtMost(values: seq<real>, x: real, n: nat): set<int>
    requires n <= |values|
  {
    set i | 0 <= i < n && values[i] <= x
  }

  lemma {:induction false} CountSnoc(init: seq<real>, y: real, x: real)
    ensures CountAtMost(init + [y], x) == CountAtMost(init, x) + if y <= x then 1 else 0
  {
    if |init| > 0 {
      assert (init + [y])[1..] == init[1..] + [y];
      CountSnoc(init[1..], y, x);
    }
  }

  lemma {:induction false} CountAtMostIs(values: seq<real>, x: real, n: nat)
    requires n <= |values|
    ensures CountAtMost(values[..n], x) == |AtMost(values, x, n)|
  {
    if n > 0 {
      CountAtMostIs(values, x, n - 1);
      assert values[..n] == values[..n - 1] + [values[n - 1]];
      CountSnoc(values[..n - 1], values[n - 1], x);
      assert AtMost(values, x, n) == AtMost(values, x, n - 1) + if values[n - 1] <= x then {n - 1} else {};
    }
  }

  /** A sample, and the least number with at least that many samples at or below it. */
  ghost predicate NearestRank(values: seq<real>, share: real, v: real) {
    v in values && forall x :: v <= x <==> |AtMost(values, x, |values|)| as real >= share
  }

  /** `p` is the whole number nearest to `v`, the higher one of two. */
  ghost predicate Rounded(v: real, p: int) {
    p as real - 0.5 <= v < p as real + 0.5
  }

  ghost predicate Reports(values: seq<real>, q: real, p: int) {
    exists v :: NearestRank(values, |values| as real * q, v) && Rounded(v, p)
  }

  lemma CeilIs(n: int, x: real)
    ensures n >= Ceil(x) <==> n as real >= x
  {
  }

  lemma RoundIs(v: real)
    ensures Rounded(v, Round(v))
  {
  }

  lemma SelectedAtMost(values: seq<real>, q: real, x: real)
    requires |values| > 0 && 0.0 < q <= 1.0
    ensures |Sort(values)| == |values|
    ensures Selected(Sort(values), q) in values
    ensures Selected(Sort(values), q) <= x <==> |AtMost(values, x, |values|)| as real >= |values| as real * q
  {
    PercentileIsNearestRank(values, q, x);
    assert values[..|values|] == values;
    CountAtMostIs(values, x, |values|);
    CeilIs(|AtMost(values, x, |values|)|, |values| as real * q);
  }

  lemma PercentileReports(values: seq<real>, q: real)
    requires |values| > 0 && 0.0 < q <= 1.0
    ensures Reports(values, q, Percentile(Sort(values), q))
  {
    SelectedAtMost(values, q, 0.0);
    var v, share := Selected(Sort(values), q), |values| as real * q;
    forall x ensures v <= x <==> |AtMost(values, x, |values|)| as real >= share {
      SelectedAtMost(values, q, x);
    }
    RoundIs(v);
    assert NearestRank(values, share, v);
  }

  /** A logged line names its route, the number of samples, and the nearest ranks of one half, 95 and 99 hundredths. */
  lemma ReportIs(route: string, values: seq<real>)
    requires |values| > 0
    ensures var r := ReportFor(route, values);
      && r.route == route && r.count == |values|
      && Reports(values, 0.5, r.p50) && Reports(values, 0.95, r.p95) && Reports(values, 0.99, r.p99)
  {
    PercentileReports(values, 0.5);
    PercentileReports(values, 0.95);
    PercentileReports(values, 0.99);
  }

  /** A disabled service records nothing. */
  lemma {:induction false} DisabledStaysEmpty(c: Config, ops: seq<Op>)
    requires !c.enabled
    ensures Run(c, ops) == map[]
  {
    if |ops| > 0 {
      DisabledStaysEmpty(c, ops[..|ops| - 1]);
    }
  }

  class RequestMetricsService {
    const config: Config
    var samples: Samples

    constructor (config: Config)
      ensures this.config == config && samples == Run(config, [])
    {
      this.config := config;
      samples := map[];
    }

    method Record(routeKey: string, durationMs: real)
      modifies this`samples
      ensures samples == Step(config, old(samples), Op.Record(routeKey, durationMs))
    {
      if !config.enabled {
        return;
      }
      var bucket := if routeKey in samples then samples[routeKey] else [];
      bucket := bucket + [durationMs];
      if |bucket| > config.maxSamples {
        bucket := bucket[1..];
      }
      samples := samples[routeKey := bucket];
    }

    /** One line is logged for every route with samples, and no route is logged twice. */
    method Flush() returns (logged: seq<Report>)
      modifies this`samples
      ensures samples == Step(config, old(samples), Op.Flush)
      ensures forall i, j :: 0 <= i < j < |logged| ==> logged[i].route != logged[j].route
      ensures forall r :: r in logged <==>
        r.route in old(samples) && old(samples)[r.route] != [] && r == ReportFor(r.route, old(samples)[r.route])
    {
      logged := [];
      var waiting := samples.Keys;
      while waiting != {}
        invariant samples == old(samples) && waiting <= samples.Keys
        invariant forall i, j :: 0 <= i < j < |logged| ==> logged[i].route != logged[j].route
        invariant forall r :: r in logged <==>
          && r.route in samples && r.route !in waiting
          && samples[r.route] != [] && r == ReportFor(r.route, samples[r.route])
        decreases waiting
      {
        var routeKey :| routeKey in waiting;
        waiting := waiting - {routeKey};
        var values := samples[routeKey];
        if |values| > 0 {
          logged := logged + [ReportFor(routeKey, values)];
        }
      }
      samples := map[];
    }
  }
}

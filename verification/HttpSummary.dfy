/** The summary of HTTP timings that the dashboard shows, read from stored buckets. */
module HttpSummary {
  import opened Histogram
  import opened HttpRollups

  datatype Summary = Summary(requests: nat, errors: nat, average: real, errorRate: real, p50: real, p95: real, p99: real)

  // A bucket that was filled from a list of durations.
  ghost predicate FilledFrom(b: Totals, ds: seq<real>) {
    b.requests == |ds| && b.duration == Sum(ds) && b.histogram == CountsOf(ds)
  }

  function Sum(ds: seq<real>): real { if ds == [] then 0.0 else Sum(ds[..|ds| - 1]) + ds[|ds| - 1] }

  lemma {:induction false} SumConcat(a: seq<real>, b: seq<real>)
    ensures Sum(a + b) == Sum(a) + Sum(b)
  {
    if b == [] {
      assert a + b == a;
    } else {
      assert (a + b)[..|a + b| - 1] == a + b[..|b| - 1];
      SumConcat(a, b[..|b| - 1]);
    }
  }

  // Adding buckets in the store keeps them filled from the requests of both.
  lemma PlusFilled(a: Totals, x: seq<real>, b: Totals, y: seq<real>)
    requires FilledFrom(a, x) && FilledFrom(b, y)
    ensures FilledFrom(Plus(a, b), x + y)
  {
    MergeIsConcat(x, y);
    SumConcat(x, y);
  }

  function Flatten(dss: seq<seq<real>>): seq<real> {
    if dss == [] then [] else Flatten(dss[..|dss| - 1]) + dss[|dss| - 1]
  }

  function TotalErrors(rows: seq<Totals>): nat {
    if rows == [] then 0 else TotalErrors(rows[..|rows| - 1]) + rows[|rows| - 1].errors
  }

  // The accumulating loop of summarizeHTTP.
  method Accumulate(rows: seq<Totals>, ghost dss: seq<seq<real>>)
    returns (requests: nat, errors: nat, total: real, merged: Counts)
    requires |dss| == |rows| && forall i :: 0 <= i < |rows| ==> FilledFrom(rows[i], dss[i])
    ensures requests == |Flatten(dss)| && total == Sum(Flatten(dss)) && merged == CountsOf(Flatten(dss))
    ensures errors == TotalErrors(rows)
  {
    requests, errors, total := 0, 0, 0.0;
    var i := 0;
    var histogram := new HTTPHistogram();
    while i < |rows|
      invariant 0 <= i <= |rows| && histogram.Valid() && fresh(histogram.counts)
      invariant requests == |Flatten(dss[..i])| && total == Sum(Flatten(dss[..i]))
      invariant errors == TotalErrors(rows[..i])
      invariant histogram.View() == CountsOf(Flatten(dss[..i]))
    {
      assert dss[..i + 1][..i] == dss[..i] && rows[..i + 1][..i] == rows[..i];
      assert FilledFrom(rows[i], dss[i]);
      MergeIsConcat(Flatten(dss[..i]), dss[i]);
      SumConcat(Flatten(dss[..i]), dss[i]);
      requests := requests + rows[i].requests;
      errors := errors + rows[i].errors;
      total := total + rows[i].duration;
      histogram.Merge(rows[i].histogram);
      i := i + 1;
    }
    assert dss[..i] == dss && rows[..i] == rows;
    merged := histogram.counts[..];
  }

  // summarizeHTTP: buckets filled from any split of the requests summarise the requests
  // themselves: exact count, exact mean, and the percentiles of the whole list in order.
  method SummarizeHTTP(rows: seq<Totals>, ghost dss: seq<seq<real>>) returns (s: Summary)
    requires |dss| == |rows| && forall i :: 0 <= i < |rows| ==> FilledFrom(rows[i], dss[i])
    ensures var ds := Flatten(dss);
            && s.requests == |ds| && s.errors == TotalErrors(rows)
            && (ds != [] ==> s.average == Sum(ds) / |ds| as real && s.errorRate == s.errors as real / |ds| as real * 100.0)
            && Answers(ds, 0.50, s.p50) && Answers(ds, 0.95, s.p95) && Answers(ds, 0.99, s.p99)
            && s.p50 <= s.p95 <= s.p99
  {
    var requests, errors, total, merged := Accumulate(rows, dss);
    var average := if requests > 0 then total / requests as real else total;
    var rate := if requests <= 0 then 0.0 else errors as real / requests as real * 100.0;
    var p50 := HistogramPercentile(merged, 0.50);
    var p95 := HistogramPercentile(merged, 0.95);
    var p99 := HistogramPercentile(merged, 0.99);
    PercentileAnswers(Flatten(dss), 0.50);
    PercentileAnswers(Flatten(dss), 0.95);
    PercentileAnswers(Flatten(dss), 0.99);
    PercentileMonotone(merged, 0.50, 0.95);
    PercentileMonotone(merged, 0.95, 0.99);
    s := Summary(requests, errors, average, rate, p50, p95, p99);
  }
}

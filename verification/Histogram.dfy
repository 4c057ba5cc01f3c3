/**
 Latency histograms with fixed bounds: observing, merging, and reading percentiles from
 ten counters instead of from the list of durations.
 */
module Histogram {

  const BOUNDS: seq<real> := [10.0, 25.0, 50.0, 100.0, 250.0, 500.0, 1000.0, 2500.0, 5000.0]

  // What a percentile reports for each counter; the overflow counter reports 5000 too.
  const REPORTED: seq<real> := [10.0, 25.0, 50.0, 100.0, 250.0, 500.0, 1000.0, 2500.0, 5000.0, 5000.0]

  const SLOTS: nat := 10

  type Counts = c: seq<nat> | |c| == 10 witness [0, 0, 0, 0, 0, 0, 0, 0, 0, 0]

  const EMPTY: Counts := [0, 0, 0, 0, 0, 0, 0, 0, 0, 0]

  // ---------- the list view ----------

  // How many durations are at most b.
  function AtMost(ds: seq<real>, b: real): nat {
    if ds == [] then 0 else AtMost(ds[..|ds| - 1], b) + if ds[|ds| - 1] <= b then 1 else 0
  }

  // The counter of one duration: the first bound it does not exceed.
  function SlotFrom(d: real, i: nat): nat
    requires i <= 9
    decreases 9 - i
  {
    if i == 9 || d <= BOUNDS[i] then i else SlotFrom(d, i + 1)
  }

  function Slot(d: real): nat { SlotFrom(d, 0) }

  function Bump(c: Counts, i: nat): Counts
    requires i < SLOTS
  {
    c[i := c[i] + 1]
  }

  // The counters after observing a list of durations.
  function CountsOf(ds: seq<real>): Counts {
    if ds == [] then EMPTY
    else
      SlotRange(ds[|ds| - 1], 0);
      Bump(CountsOf(ds[..|ds| - 1]), Slot(ds[|ds| - 1]))
  }

  function Prefix(c: Counts, n: nat): nat
    requires n <= SLOTS
  {
    if n == 0 then 0 else Prefix(c, n - 1) + c[n - 1]
  }

  function Add(a: Counts, b: Counts): Counts { seq(SLOTS, i requires 0 <= i < SLOTS => a[i] + b[i]) }

  lemma {:induction false} SlotRange(d: real, i: nat)
    requires i <= 9
    ensures i <= SlotFrom(d, i) <= 9
    ensures SlotFrom(d, i) < 9 ==> d <= BOUNDS[SlotFrom(d, i)]
    ensures forall j :: i <= j < SlotFrom(d, i) ==> d > BOUNDS[j]
    decreases 9 - i
  {
    if i < 9 && d > BOUNDS[i] { SlotRange(d, i + 1); }
  }

  lemma BoundsIncrease(i: nat, j: nat)
    requires i < j < 9
    ensures BOUNDS[i] < BOUNDS[j]
  {}

  lemma {:induction false} PrefixBump(c: Counts, i: nat, n: nat)
    requires i < SLOTS && n <= SLOTS
    ensures Prefix(Bump(c, i), n) == Prefix(c, n) + if i < n then 1 else 0
  {
    if n > 0 { PrefixBump(c, i, n - 1); }
  }

  // The first n counters count the durations up to bound n - 1; all ten count them all.
  lemma {:induction false} PrefixCounts(ds: seq<real>, n: nat)
    requires n <= SLOTS
    ensures Prefix(CountsOf(ds), n) == if n == 0 then 0 else if n == SLOTS then |ds| else AtMost(ds, BOUNDS[n - 1])
  {
    if ds == [] {
      PrefixEmpty(n);
    } else {
      var init, d := ds[..|ds| - 1], ds[|ds| - 1];
      PrefixCounts(init, n);
      SlotRange(d, 0);
      PrefixBump(CountsOf(init), Slot(d), n);
      if 0 < n < SLOTS {
        if Slot(d) < n - 1 { BoundsIncrease(Slot(d), n - 1); }
      }
    }
  }

  lemma {:induction false} PrefixEmpty(n: nat)
    requires n <= SLOTS
    ensures Prefix(EMPTY, n) == 0
  {
    if n > 0 { PrefixEmpty(n - 1); }
  }

  // Merging counters is observing both lists.
  lemma {:induction false} MergeIsConcat(a: seq<real>, b: seq<real>)
    ensures CountsOf(a + b) == Add(CountsOf(a), CountsOf(b))
  {
    if b == [] {
      assert a + b == a;
    } else {
      var init, d := b[..|b| - 1], b[|b| - 1];
      assert (a + b)[..|a + b| - 1] == a + init;
      MergeIsConcat(a, init);
      SlotRange(d, 0);
    }
  }

  // ---------- percentiles ----------

  function Ceil(r: real): int { if r.Floor as real == r then r.Floor else r.Floor + 1 }

  function Scaled(total: nat, q: real): real { total as real * q }

  function Target(total: nat, q: real): int { Ceil(Scaled(total, q)) }

  // The first counter at which the running sum reaches the target, from counter i on.
  function Reach(c: Counts, target: int, i: nat): nat
    requires i <= SLOTS
    decreases SLOTS - i
  {
    if i == SLOTS || Prefix(c, i + 1) >= target then i else Reach(c, target, i + 1)
  }

  function Percentile(c: Counts, q: real): real {
    if Prefix(c, SLOTS) == 0 then 0.0
    else
      ReachRange(c, Target(Prefix(c, SLOTS), q), 0);
      var i := Reach(c, Target(Prefix(c, SLOTS), q), 0);
      if i < SLOTS then REPORTED[i] else 5000.0
  }

  lemma {:induction false} ReachRange(c: Counts, target: int, i: nat)
    requires i <= SLOTS
    ensures i <= Reach(c, target, i) <= SLOTS
    ensures Reach(c, target, i) < SLOTS ==> Prefix(c, Reach(c, target, i) + 1) >= target
    ensures forall n :: i < n <= Reach(c, target, i) ==> Prefix(c, n) < target
    decreases SLOTS - i
  {
    if i < SLOTS && Prefix(c, i + 1) < target { ReachRange(c, target, i + 1); }
  }

  // At least the fraction q of the durations are at most b.
  predicate Suffices(ds: seq<real>, q: real, b: real) { AtMost(ds, b) as real >= q * |ds| as real }

  // p answers quantile q of the list: the least bound that suffices, or 5000 when only
  // durations above every bound would.
  ghost predicate Answers(ds: seq<real>, q: real, p: real) {
    if ds == [] then p == 0.0
    else
      || (exists i :: 0 <= i < |BOUNDS| && p == BOUNDS[i] && Suffices(ds, q, BOUNDS[i])
                      && forall j :: 0 <= j < i ==> !Suffices(ds, q, BOUNDS[j]))
      || (p == 5000.0 && forall j :: 0 <= j < |BOUNDS| ==> !Suffices(ds, q, BOUNDS[j]))
  }

  // A count reaches the rounded-up target exactly when it reaches the fraction itself.
  lemma TargetMeans(count: nat, total: nat, q: real)
    ensures count >= Target(total, q) <==> count as real >= q * total as real
  {
    assert Scaled(total, q) == q * total as real;
  }

  lemma PrefixMeans(ds: seq<real>, q: real, j: nat)
    requires j < |BOUNDS|
    ensures Suffices(ds, q, BOUNDS[j]) <==> Prefix(CountsOf(ds), j + 1) >= Target(|ds|, q)
  {
    PrefixCounts(ds, j + 1);
    TargetMeans(AtMost(ds, BOUNDS[j]), |ds|, q);
  }

  // The first counter that reaches the target names the least bound that suffices.
  lemma LeastBound(ds: seq<real>, q: real) returns (i: nat)
    ensures i == Reach(CountsOf(ds), Target(|ds|, q), 0) && i <= SLOTS
    ensures i < |BOUNDS| ==> Suffices(ds, q, BOUNDS[i])
    ensures forall j :: 0 <= j < i && j < |BOUNDS| ==> !Suffices(ds, q, BOUNDS[j])
  {
    var c, target := CountsOf(ds), Target(|ds|, q);
    ReachRange(c, target, 0);
    i := Reach(c, target, 0);
    if i < |BOUNDS| { PrefixMeans(ds, q, i); }
    forall j | 0 <= j < i && j < |BOUNDS|
      ensures !Suffices(ds, q, BOUNDS[j])
    {
      PrefixMeans(ds, q, j);
    }
  }

  // The counters lose nothing that the percentile needs.
  lemma PercentileAnswers(ds: seq<real>, q: real)
    ensures Answers(ds, q, Percentile(CountsOf(ds), q))
  {
    PrefixCounts(ds, SLOTS);
    var i := LeastBound(ds, q);
    if ds != [] && i < |BOUNDS| { assert REPORTED[i] == BOUNDS[i]; }
  }

  lemma ScaledMonotone(n: nat, q: real, r: real)
    requires q <= r
    ensures Scaled(n, q) <= Scaled(n, r)
  {
    var x := n as real;
    assert x * r - x * q == x * (r - q);
    assert x * (r - q) >= 0.0;
  }

  lemma CeilMonotone(r: real, s: real)
    requires r <= s
    ensures Ceil(r) <= Ceil(s)
  {}

  lemma TargetMonotone(n: nat, q: real, r: real)
    requires q <= r
    ensures Target(n, q) <= Target(n, r)
  {
    ScaledMonotone(n, q, r);
    CeilMonotone(Scaled(n, q), Scaled(n, r));
  }

  lemma ReachMonotone(c: Counts, t: int, u: int)
    requires t <= u
    ensures Reach(c, t, 0) <= Reach(c, u, 0)
  {
    ReachRange(c, t, 0);
    ReachRange(c, u, 0);
    if Reach(c, u, 0) < Reach(c, t, 0) { assert false; }
  }

  lemma ReportedMonotone(i: nat, j: nat)
    requires i <= j < SLOTS
    ensures REPORTED[i] <= REPORTED[j] <= 5000.0
  {}

  // Larger quantiles never report smaller latencies.
  lemma PercentileMonotone(c: Counts, q: real, r: real)
    requires q <= r
    ensures Percentile(c, q) <= Percentile(c, r)
  {
    var n := Prefix(c, SLOTS);
    TargetMonotone(n, q, r);
    ReachMonotone(c, Target(n, q), Target(n, r));
    ReachRange(c, Target(n, q), 0);
    ReachRange(c, Target(n, r), 0);
    var i, j := Reach(c, Target(n, q), 0), Reach(c, Target(n, r), 0);
    if j < SLOTS { ReportedMonotone(i, j); } else if i < SLOTS { ReportedMonotone(i, i); }
  }

  // ---------- the histogram object and the summary ----------

  class HTTPHistogram {
    const counts: array<nat>

    ghost predicate Valid() reads this { counts.Length == 10 }

    ghost function View(): Counts
      reads this, counts
      requires Valid()
    {
      counts[..]
    }

    constructor ()
      ensures Valid() && fresh(counts) && View() == EMPTY
    {
      counts := new nat[10](_ => 0);
      new;
      assert counts[..] == EMPTY;
    }

    // Adds one duration to the first counter whose bound it does not exceed.
    method Observe(d: real)
      requires Valid()
      modifies counts
      ensures forall ds :: old(View()) == CountsOf(ds) ==> View() == CountsOf(ds + [d])
      ensures Slot(d) < SLOTS && View() == Bump(old(View()), Slot(d))
    {
      SlotRange(d, 0);
      forall ds: seq<real>
        ensures CountsOf(ds + [d]) == Bump(CountsOf(ds), Slot(d))
      {
        assert (ds + [d])[..|ds|] == ds;
      }
      var i := 0;
      while i < |BOUNDS|
        invariant 0 <= i <= |BOUNDS| && counts[..] == old(counts[..])
        invariant SlotFrom(d, i) == Slot(d)
      {
        if d <= BOUNDS[i] {
          counts[i] := counts[i] + 1;
          assert counts[..] == Bump(old(View()), i);
          return;
        }
        i := i + 1;
      }
      counts[9] := counts[9] + 1;
      assert counts[..] == Bump(old(View()), 9);
    }

    // Adds another histogram, counter by counter.
    method Merge(other: Counts)
      requires Valid()
      modifies counts
      ensures View() == Add(old(View()), other)
    {
      var i := 0;
      while i < 10
        invariant 0 <= i <= 10
        invariant forall k :: 0 <= k < i ==> counts[k] == old(counts[k]) + other[k]
        invariant forall k :: i <= k < 10 ==> counts[k] == old(counts[k])
      {
        counts[i] := counts[i] + other[i];
        i := i + 1;
      }
    }
  }

  method Total(c: Counts) returns (total: nat)
    ensures total == Prefix(c, SLOTS)
  {
    total := 0;
    var i := 0;
    while i < SLOTS
      invariant 0 <= i <= SLOTS && total == Prefix(c, i)
    {
      total := total + c[i];
      i := i + 1;
    }
  }

  method FirstReaching(c: Counts, target: int) returns (i: nat)
    ensures i == Reach(c, target, 0) && i <= SLOTS
  {
    var seen := 0;
    i := 0;
    while i < SLOTS
      invariant 0 <= i <= SLOTS && seen == Prefix(c, i)
      invariant Reach(c, target, i) == Reach(c, target, 0)
    {
      seen := seen + c[i];
      if seen >= target { return; }
      i := i + 1;
    }
  }

  // histogramPercentile: one loop for the total, one for the running sum.
  method HistogramPercentile(c: Counts, q: real) returns (p: real)
    ensures p == Percentile(c, q)
  {
    var total := Total(c);
    if total == 0 { return 0.0; }
    var i := FirstReaching(c, Target(total, q));
    p := if i < SLOTS then REPORTED[i] else 5000.0;
  }
}

/** Edge-triggered alert rules: a breach sustained past its duration fires once. */
module Alerts {
  import opened Common

  // Times are clock readings; a zero start is None.
  datatype Breach = Breach(start: Option<int>, fired: bool)

  const QUIET := Breach(None, false)

  // One evaluation of a rule; `inserts` says whether a notification could be stored.
  datatype Check = Check(rule: int, duration: nat, breaching: bool, now: int, inserts: bool)

  function StartOf(b: Breach, c: Check): int { if b.start.None? then c.now else b.start.value }

  predicate Due(b: Breach, c: Check) { c.breaching && !b.fired && c.now - StartOf(b, c) >= c.duration }

  predicate Fires(b: Breach, c: Check) { Due(b, c) && c.inserts }

  // The entry after one evaluation; a failed insert leaves it as it was.
  function Evaluated(b: Breach, c: Check): Breach {
    if !c.breaching then QUIET
    else if Due(b, c) && !c.inserts then b
    else Breach(Some(StartOf(b, c)), b.fired || Due(b, c))
  }

  class Sampler {
    var breaches: map<int, Breach>

    constructor ()
      ensures breaches == map[]
    {
      breaches := map[];
    }

    ghost function Entry(rule: int): Breach
      reads this
    {
      EntryIn(breaches, rule)
    }

    // `fired` reports a stored notification, `failed` an insert that failed.
    method EvaluateThreshold(c: Check) returns (fired: bool, failed: bool)
      modifies this
      ensures fired == Fires(old(Entry(c.rule)), c) && failed == (Due(old(Entry(c.rule)), c) && !c.inserts)
      ensures Entry(c.rule) == Evaluated(old(Entry(c.rule)), c)
      ensures forall r :: r != c.rule ==> Entry(r) == old(Entry(r))
    {
      var state := if c.rule in breaches then breaches[c.rule] else QUIET;
      fired, failed := false, false;
      if !c.breaching {
        breaches := breaches - {c.rule};
        return;
      }
      if state.start.None? { state := state.(start := Some(c.now)); }
      if !state.fired && c.now - state.start.value >= c.duration {
        if !c.inserts { return false, true; }
        fired := true;
        state := state.(fired := true);
      }
      breaches := breaches[c.rule := state];
    }
  }

  // ---------- traces of all rules ----------

  function EntryIn(breaches: map<int, Breach>, rule: int): Breach { if rule in breaches then breaches[rule] else QUIET }

  // The entry of one rule after the first n evaluations of any rules.
  function After(trace: seq<Check>, rule: int, n: nat): Breach
    requires n <= |trace|
  {
    if n == 0 then QUIET
    else if trace[n - 1].rule != rule then After(trace, rule, n - 1)
    else Evaluated(After(trace, rule, n - 1), trace[n - 1])
  }

  // Evaluation n fires its rule.
  predicate FiresAt(trace: seq<Check>, n: nat)
    requires n < |trace|
  {
    Fires(After(trace, trace[n].rule, n), trace[n])
  }

  // Every evaluation of the rule from m up to n breaches, and m is one of them.
  ghost predicate Breaching(trace: seq<Check>, rule: int, m: nat, n: nat) {
    && m < n <= |trace| && trace[m].rule == rule
    && forall i :: m <= i < n && trace[i].rule == rule ==> trace[i].breaching
  }

  // The maximal breaching run that ends before n begins at m.
  ghost predicate RunFrom(trace: seq<Check>, rule: int, m: nat, n: nat) {
    Breaching(trace, rule, m, n) && forall k: nat :: Breaching(trace, rule, k, n) ==> m <= k
  }

  // At evaluation n the run begun at m has lasted for the duration, and n can be stored.
  predicate Sustained(trace: seq<Check>, m: nat, n: nat)
    requires m < |trace| && n < |trace|
  {
    trace[n].now - trace[m].now >= trace[n].duration && trace[n].inserts
  }

  ghost predicate SustainedBefore(trace: seq<Check>, rule: int, m: nat, n: nat)
    requires m < |trace| && n <= |trace|
  {
    exists k :: m <= k < n && trace[k].rule == rule && Sustained(trace, m, k)
  }

  // Rules are created with positive durations only.
  ghost predicate Positive(trace: seq<Check>) { forall i :: 0 <= i < |trace| ==> trace[i].duration > 0 }

  // The entry of a rule remembers where its breaching run began and whether it fired.
  ghost predicate Remembers(trace: seq<Check>, rule: int, n: nat, m: Option<nat>)
    requires n <= |trace|
  {
    var b := After(trace, rule, n);
    if m.None? then b == QUIET && forall k: nat :: !Breaching(trace, rule, k, n)
    else RunFrom(trace, rule, m.value, n) && b.start == Some(trace[m.value].now)
         && (b.fired <==> SustainedBefore(trace, rule, m.value, n))
  }

  lemma BreachingStep(trace: seq<Check>, rule: int, m: nat, n: nat)
    requires 0 < n <= |trace|
    ensures trace[n - 1].rule != rule ==> (Breaching(trace, rule, m, n) <==> Breaching(trace, rule, m, n - 1))
    ensures trace[n - 1].rule == rule && trace[n - 1].breaching ==>
              (Breaching(trace, rule, m, n) <==> Breaching(trace, rule, m, n - 1) || m == n - 1)
    ensures trace[n - 1].rule == rule && !trace[n - 1].breaching ==> !Breaching(trace, rule, m, n)
  {}

  lemma SustainedStep(trace: seq<Check>, rule: int, m: nat, n: nat)
    requires m < n <= |trace|
    ensures SustainedBefore(trace, rule, m, n) <==>
              SustainedBefore(trace, rule, m, n - 1) || (trace[n - 1].rule == rule && Sustained(trace, m, n - 1))
  {}

  lemma {:induction false} EntryRemembers(trace: seq<Check>, rule: int, n: nat) returns (m: Option<nat>)
    requires n <= |trace| && Positive(trace)
    ensures Remembers(trace, rule, n, m)
  {
    m := None;
    if n > 0 {
      var before := EntryRemembers(trace, rule, n - 1);
      forall k: nat { BreachingStep(trace, rule, k, n); }
      if trace[n - 1].rule != rule {
        m := before;
        if m.Some? { SustainedStep(trace, rule, m.value, n); }
      } else if trace[n - 1].breaching {
        m := if before.None? then Some(n - 1) else before;
        SustainedStep(trace, rule, m.value, n);
      }
    }
  }

  // A rule fires exactly at the first storable evaluation of a breaching run whose
  // distance from the start of the run reaches the duration.
  lemma FiresExactly(trace: seq<Check>, n: nat)
    requires n < |trace| && Positive(trace)
    ensures var rule := trace[n].rule;
            FiresAt(trace, n) <==>
              exists m: nat :: RunFrom(trace, rule, m, n + 1) && Sustained(trace, m, n) && !SustainedBefore(trace, rule, m, n)
  {
    var rule := trace[n].rule;
    var before := EntryRemembers(trace, rule, n);
    if trace[n].breaching {
      var m := if before.Some? then before.value else n;
      var end := n + 1;
      BreachingStep(trace, rule, m, end);
      forall k: nat | Breaching(trace, rule, k, end)
        ensures m <= k
      {
        BreachingStep(trace, rule, k, end);
      }
      assert RunFrom(trace, rule, m, end);
    }
  }

  lemma SameStart(trace: seq<Check>, rule: int, a: nat, b: nat, i: nat, j: nat)
    requires i < j < |trace| && RunFrom(trace, rule, a, i + 1) && RunFrom(trace, rule, b, j + 1)
    ensures (forall k :: i < k < j && trace[k].rule == rule ==> trace[k].breaching) ==> a == b
  {
    if forall k :: i < k < j && trace[k].rule == rule ==> trace[k].breaching {
      assert trace[j].rule == rule ==> trace[j].breaching;
      assert Breaching(trace, rule, a, j + 1);
      assert Breaching(trace, rule, b, i + 1);
    }
  }

  // Between two alerts of one rule some evaluation of it did not breach.
  lemma FiresOncePerRun(trace: seq<Check>, i: nat, j: nat)
    requires i < j < |trace| && Positive(trace) && trace[i].rule == trace[j].rule
    requires FiresAt(trace, i) && FiresAt(trace, j)
    ensures exists k :: i < k < j && trace[k].rule == trace[i].rule && !trace[k].breaching
  {
    var rule := trace[i].rule;
    FiresExactly(trace, i);
    FiresExactly(trace, j);
    var a: nat :| RunFrom(trace, rule, a, i + 1) && Sustained(trace, a, i);
    var b: nat :| RunFrom(trace, rule, b, j + 1) && Sustained(trace, b, j) && !SustainedBefore(trace, rule, b, j);
    SameStart(trace, rule, a, b, i, j);
  }
}

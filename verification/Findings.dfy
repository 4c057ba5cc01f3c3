/**
 Security finding episodes: one row per episode of a fingerprint, opened by a
 detection, closed by a covered negative observation or by an operator, and
 reopened when a suppression runs out.
 */
module Findings {
  import opened Common
  import opened StoredTime

  datatype Status = Open | Acknowledged | Suppressed | Resolved

  // The hash of container, rule and baseline, kept as the hashed parts.
  datatype Fingerprint = Fingerprint(container: string, rule: string, baseline: string)

  datatype Details = Details(category: string, severity: string, confidence: string, evidence: map<string, string>)

  // Who acknowledged the finding and when, and who suppressed it and why.
  datatype History = History(
    acknowledgedAt: Option<Moment>, acknowledgedBy: string, suppressionReason: string, suppressionActor: string)

  const NO_HISTORY := History(None, "", "", "")

  datatype Finding = Finding(
    fingerprint: Fingerprint, episode: nat, status: Status, occurrences: nat, details: Details,
    openedAt: Moment, lastSeen: Moment, resolvedAt: Option<Moment>, resolvedBy: string, until: Option<Moment>, history: History)

  datatype Observation = Observation(
    fingerprint: Fingerprint, detected: bool, coverage: bool, details: Details, at: Moment)

  // AUTOINCREMENT hands out every id once, so `nextId` never goes back.
  datatype Db = Db(findings: map<nat, Finding>, nextId: nat)

  datatype Report = Report(finding: Option<nat>, opens: bool, recovers: bool)

  predicate Active(f: Finding) { !f.status.Resolved? }

  // findOpenFinding: an active row of the fingerprint among the ids below n.
  function ActiveBelow(fs: map<nat, Finding>, fp: Fingerprint, n: nat): Option<nat> {
    if n == 0 then None
    else if n - 1 in fs && fs[n - 1].fingerprint == fp && Active(fs[n - 1]) then Some(n - 1)
    else ActiveBelow(fs, fp, n - 1)
  }

  function ActiveOf(db: Db, fp: Fingerprint): Option<nat> { ActiveBelow(db.findings, fp, db.nextId) }

  // COALESCE(MAX(episode), 0) of the fingerprint among the ids below n.
  function MaxEpisode(fs: map<nat, Finding>, fp: Fingerprint, n: nat): nat {
    if n == 0 then 0
    else
      var m := MaxEpisode(fs, fp, n - 1);
      if n - 1 in fs && fs[n - 1].fingerprint == fp && fs[n - 1].episode > m then fs[n - 1].episode else m
  }

  predicate Elapsed(f: Finding, at: Moment) {
    f.status.Suppressed? && f.until.Some? && f.until.value <= at
  }

  function Reopen(f: Finding, at: Moment): Finding {
    if Elapsed(f, at) then f.(status := Open, lastSeen := at) else f
  }

  function Seen(f: Finding, o: Observation): Finding {
    f.(occurrences := f.occurrences + 1, lastSeen := o.at, details := o.details.(category := f.details.category))
  }

  function Recover(f: Finding, at: Moment): Finding {
    f.(status := Resolved, resolvedAt := Some(at), resolvedBy := "collector", lastSeen := at)
  }

  function Fresh(db: Db, o: Observation): Finding {
    Finding(o.fingerprint, MaxEpisode(db.findings, o.fingerprint, db.nextId) + 1, Open, 1, o.details, o.at, o.at, None, "", None, NO_HISTORY)
  }

  // The committed effect of one evaluation.
  function Evaluated(db: Db, o: Observation): (Db, Report) {
    var active := ActiveOf(db, o.fingerprint);
    if active.Some? && active.value in db.findings then
      var id := active.value;
      var f := db.findings[id];
      var g := Reopen(f, o.at);
      if o.detected then (db.(findings := db.findings[id := Seen(g, o)]), Report(Some(id), Elapsed(f, o.at), false))
      else if o.coverage then (db.(findings := db.findings[id := Recover(g, o.at)]), Report(Some(id), false, true))
      else (db.(findings := db.findings[id := g]), Report(None, false, false))
    else if o.detected then
      (Db(db.findings[db.nextId := Fresh(db, o)], db.nextId + 1), Report(Some(db.nextId), true, false))
    else (db, Report(None, false, false))
  }

  // ---------- steps and runs ----------

  // Committed transactions. A rejected or rolled back one is no step at all.
  datatype Step =
    | Evaluate(o: Observation)
    | Acknowledge(id: nat, actor: string, at: Moment)
    | Resolve(id: nat, actor: string, at: Moment)
    | Suppress(id: nat, until: Option<Moment>, reason: string, actor: string)
    | Expire(listed: seq<nat>, due: Moment -> bool)
    | Retain(ids: set<nat>)

  // The expiry statement compares stored texts; `due` is that comparison.
  predicate Expires(f: Finding, due: Moment -> bool) {
    f.status.Suppressed? && f.until.Some? && due(f.until.value)
  }

  function DueBy(now: Moment): Moment -> bool { (until: Moment) => TextAtMost(until, now) }

  // One guarded update per listed id, in order.
  function ExpireAll(fs: map<nat, Finding>, listed: seq<nat>, due: Moment -> bool): map<nat, Finding> {
    if listed == [] then fs
    else
      var g, id := ExpireAll(fs, listed[..|listed| - 1], due), listed[|listed| - 1];
      if id in g && Expires(g[id], due) then g[id := g[id].(status := Open)] else g
  }

  function Apply(db: Db, s: Step): Db {
    var fs := db.findings;
    match s
    case Evaluate(o) => Evaluated(db, o).0
    case Acknowledge(id, actor, at) =>
      if id in fs && fs[id].status.Open? then
        db.(findings := fs[id := fs[id].(status := Acknowledged, history := fs[id].history.(acknowledgedAt := Some(at), acknowledgedBy := actor))])
      else db
    case Resolve(id, actor, at) =>
      if id in fs && Active(fs[id]) then
        db.(findings := fs[id := fs[id].(status := Resolved, resolvedAt := Some(at), resolvedBy := actor)])
      else db
    case Suppress(id, until, reason, actor) =>
      if id in fs && (fs[id].status.Open? || fs[id].status.Acknowledged?) then
        db.(findings := fs[id := fs[id].(status := Suppressed, until := until,
                                         history := fs[id].history.(suppressionReason := reason, suppressionActor := actor))])
      else db
    case Expire(listed, due) => db.(findings := ExpireAll(fs, listed, due))
    case Retain(ids) => db.(findings := map id | id in fs && !(id in ids && fs[id].status.Resolved?) :: fs[id])
  }

  const EMPTY := Db(map[], 1)

  // The database after the first n steps of a run.
  function After(steps: seq<Step>, n: nat): Db
    requires n <= |steps|
  {
    if n == 0 then EMPTY else Apply(After(steps, n - 1), steps[n - 1])
  }

  // ---------- the episode invariant ----------

  // Two rows of one fingerprint: different episodes, and an active one is the newest.
  predicate Apart(f: Finding, g: Finding) {
    f.fingerprint == g.fingerprint ==> f.episode != g.episode && (Active(f) ==> g.episode < f.episode)
  }

  ghost predicate Sound(db: Db) {
    && (forall id :: id in db.findings ==> id < db.nextId)
    && (forall a, b :: a in db.findings && b in db.findings && a != b ==> Apart(db.findings[a], db.findings[b]))
  }

  lemma {:induction false} ActiveBelowMeaning(fs: map<nat, Finding>, fp: Fingerprint, n: nat)
    ensures var r := ActiveBelow(fs, fp, n);
            && (r.Some? ==> r.value < n && r.value in fs && fs[r.value].fingerprint == fp && Active(fs[r.value]))
            && (r.None? ==> forall id :: id < n && id in fs && fs[id].fingerprint == fp ==> !Active(fs[id]))
  {
    if n > 0 { ActiveBelowMeaning(fs, fp, n - 1); }
  }

  lemma {:induction false} MaxEpisodeBound(fs: map<nat, Finding>, fp: Fingerprint, n: nat)
    ensures forall id :: id < n && id in fs && fs[id].fingerprint == fp ==> fs[id].episode <= MaxEpisode(fs, fp, n)
  {
    if n > 0 { MaxEpisodeBound(fs, fp, n - 1); }
  }

  // The lookup finds the one active row of a fingerprint, if there is one.
  lemma ActiveUnique(db: Db, id: nat)
    requires Sound(db) && id in db.findings && Active(db.findings[id])
    ensures ActiveOf(db, db.findings[id].fingerprint) == Some(id)
  {
    ActiveBelowMeaning(db.findings, db.findings[id].fingerprint, db.nextId);
  }

  lemma EvaluatedSound(db: Db, o: Observation)
    requires Sound(db)
    ensures Sound(Evaluated(db, o).0)
  {
    ActiveBelowMeaning(db.findings, o.fingerprint, db.nextId);
    MaxEpisodeBound(db.findings, o.fingerprint, db.nextId);
  }

  // Expiry opens exactly the listed rows whose suppression has run out.
  lemma {:induction false} ExpireAllMeaning(fs: map<nat, Finding>, listed: seq<nat>, due: Moment -> bool)
    ensures var g := ExpireAll(fs, listed, due);
            && g.Keys == fs.Keys
            && forall id :: id in fs ==> g[id] == if id in listed && Expires(fs[id], due) then fs[id].(status := Open) else fs[id]
  {
    if listed != [] {
      var n := |listed| - 1;
      ExpireAllMeaning(fs, listed[..n], due);
      assert listed == listed[..n] + [listed[n]];
    }
  }

  lemma ExpireSound(db: Db, listed: seq<nat>, due: Moment -> bool)
    requires Sound(db)
    ensures Sound(db.(findings := ExpireAll(db.findings, listed, due)))
  {
    ExpireAllMeaning(db.findings, listed, due);
  }

  lemma ApplySound(db: Db, s: Step)
    requires Sound(db)
    ensures Sound(Apply(db, s)) && db.nextId <= Apply(db, s).nextId
  {
    if s.Evaluate? { EvaluatedSound(db, s.o); }
    if s.Expire? { ExpireSound(db, s.listed, s.due); }
  }

  // In every reachable database a fingerprint has at most one active finding, and its
  // episode is larger than every other stored episode of that fingerprint.
  lemma {:induction false} RunSound(steps: seq<Step>, n: nat)
    requires n <= |steps|
    ensures Sound(After(steps, n))
  {
    if n > 0 {
      RunSound(steps, n - 1);
      ApplySound(After(steps, n - 1), steps[n - 1]);
    }
  }

  // ---------- resolved means resolved ----------

  lemma FrozenStep(db: Db, s: Step, id: nat)
    requires Sound(db) && id < db.nextId && (id in db.findings ==> db.findings[id].status.Resolved?)
    ensures id in Apply(db, s).findings ==> id in db.findings && Apply(db, s).findings[id] == db.findings[id]
  {
    if s.Expire? { ExpireAllMeaning(db.findings, s.listed, s.due); }
    if s.Evaluate? { ActiveBelowMeaning(db.findings, s.o.fingerprint, db.nextId); }
  }

  // Once resolved, a row never changes again; it can only be deleted, and a deleted id
  // never comes back.
  lemma {:induction false} ResolvedForever(steps: seq<Step>, m: nat, n: nat, id: nat)
    requires m <= n <= |steps| && id < After(steps, m).nextId
    requires id in After(steps, m).findings ==> After(steps, m).findings[id].status.Resolved?
    ensures id < After(steps, n).nextId
    ensures id in After(steps, n).findings ==>
      id in After(steps, m).findings && After(steps, n).findings[id] == After(steps, m).findings[id]
  {
    if m < n {
      ResolvedForever(steps, m, n - 1, id);
      RunSound(steps, n - 1);
      ApplySound(After(steps, n - 1), steps[n - 1]);
      FrozenStep(After(steps, n - 1), steps[n - 1], id);
    }
  }

  // ---------- what one step does to one row ----------

  predicate Detects(s: Step, fp: Fingerprint) { s.Evaluate? && s.o.fingerprint == fp && s.o.detected }

  // A finding stops being active in exactly two ways.
  predicate Ends(s: Step, id: nat, fp: Fingerprint) {
    (s.Evaluate? && s.o.fingerprint == fp && !s.o.detected && s.o.coverage) || (s.Resolve? && s.id == id)
  }

  lemma StepOnActive(db: Db, s: Step, id: nat)
    requires Sound(db) && id in db.findings && Active(db.findings[id])
    ensures var f, after := db.findings[id], Apply(db, s).findings;
            && id in after && after[id].fingerprint == f.fingerprint && after[id].episode == f.episode
            && (!Active(after[id]) <==> Ends(s, id, f.fingerprint))
            && after[id].occurrences == f.occurrences + (if Detects(s, f.fingerprint) then 1 else 0)
  {
    ActiveUnique(db, id);
    if s.Expire? { ExpireAllMeaning(db.findings, s.listed, s.due); }
    if s.Evaluate? { ActiveBelowMeaning(db.findings, s.o.fingerprint, db.nextId); }
  }

  lemma BornStep(db: Db, s: Step, id: nat)
    requires Sound(db) && id !in db.findings && id in Apply(db, s).findings
    ensures s.Evaluate? && s.o.detected && ActiveOf(db, s.o.fingerprint).None?
    ensures var f := Apply(db, s).findings[id]; f.fingerprint == s.o.fingerprint && f.occurrences == 1 && f.status.Open?
    ensures Evaluated(db, s.o).1.opens
  {
    if s.Expire? { ExpireAllMeaning(db.findings, s.listed, s.due); }
    if s.Evaluate? { ActiveBelowMeaning(db.findings, s.o.fingerprint, db.nextId); }
  }

  // An observation without coverage resolves nothing, whatever it says.
  lemma NoCoverageNoRecovery(db: Db, o: Observation, id: nat)
    requires Sound(db) && !o.coverage && id in db.findings && Active(db.findings[id])
    ensures id in Evaluated(db, o).0.findings && Active(Evaluated(db, o).0.findings[id])
    ensures !Evaluated(db, o).1.recovers
  {
    StepOnActive(db, Evaluate(o), id);
  }

  // ---------- occurrences count detections ----------

  function Detections(steps: seq<Step>, fp: Fingerprint, lo: nat, hi: nat): nat
    requires hi <= |steps|
    decreases hi
  {
    if hi <= lo then 0 else Detections(steps, fp, lo, hi - 1) + (if Detects(steps[hi - 1], fp) then 1 else 0)
  }

  // Within the first n steps the episode `id` ran from step `born` up to step `closed`.
  ghost predicate Lifetime(steps: seq<Step>, n: nat, id: nat, born: nat, closed: nat)
    requires n <= |steps|
  {
    && born < closed <= n
    && id !in After(steps, born).findings
    && (forall m :: born < m <= closed ==> ActiveAt(steps, m, id))
    && (closed < n ==> !ActiveAt(steps, n, id))
  }

  ghost predicate ActiveAt(steps: seq<Step>, m: nat, id: nat)
    requires m <= |steps|
  {
    id in After(steps, m).findings && Active(After(steps, m).findings[id])
  }

  ghost predicate CountsDetections(steps: seq<Step>, n: nat, id: nat, born: nat, closed: nat)
    requires n <= |steps| && id in After(steps, n).findings && closed <= n
  {
    var f := After(steps, n).findings[id];
    born < |steps| && Detects(steps[born], f.fingerprint) && f.occurrences == Detections(steps, f.fingerprint, born, closed)
  }

  lemma CountAtBirth(steps: seq<Step>, n: nat, id: nat)
    requires 0 < n <= |steps| && id !in After(steps, n - 1).findings && id in After(steps, n).findings
    ensures Lifetime(steps, n, id, n - 1, n) && CountsDetections(steps, n, id, n - 1, n)
  {
    RunSound(steps, n - 1);
    BornStep(After(steps, n - 1), steps[n - 1], id);
    assert Detections(steps, steps[n - 1].o.fingerprint, n - 1, n - 1) == 0;
  }

  lemma DetectionsSplit(steps: seq<Step>, fp: Fingerprint, lo: nat, n: nat)
    requires lo < n <= |steps|
    ensures Detections(steps, fp, lo, n) == Detections(steps, fp, lo, n - 1) + if Detects(steps[n - 1], fp) then 1 else 0
  {}

  lemma CountWhileActive(steps: seq<Step>, n: nat, id: nat, born: nat, closed: nat)
    requires 0 < n <= |steps| && ActiveAt(steps, n - 1, id)
    requires Lifetime(steps, n - 1, id, born, closed) && CountsDetections(steps, n - 1, id, born, closed)
    ensures closed == n - 1 && id in After(steps, n).findings
    ensures ActiveAt(steps, n, id) ==> Lifetime(steps, n, id, born, n) && CountsDetections(steps, n, id, born, n)
    ensures !ActiveAt(steps, n, id) ==> Lifetime(steps, n, id, born, closed) && CountsDetections(steps, n, id, born, closed)
  {
    ActiveStepAt(steps, n, id);
    DetectionsSplit(steps, After(steps, n).findings[id].fingerprint, born, n);
  }

  lemma ActiveStepAt(steps: seq<Step>, n: nat, id: nat)
    requires 0 < n <= |steps| && ActiveAt(steps, n - 1, id)
    ensures id in After(steps, n).findings
    ensures var f, g := After(steps, n - 1).findings[id], After(steps, n).findings[id];
            g.fingerprint == f.fingerprint && g.occurrences == f.occurrences + if Detects(steps[n - 1], f.fingerprint) then 1 else 0
  {
    RunSound(steps, n - 1);
    StepOnActive(After(steps, n - 1), steps[n - 1], id);
  }

  lemma CountWhileClosed(steps: seq<Step>, n: nat, id: nat, born: nat, closed: nat)
    requires 0 < n <= |steps| && id in After(steps, n - 1).findings && !ActiveAt(steps, n - 1, id) && id in After(steps, n).findings
    requires Lifetime(steps, n - 1, id, born, closed) && CountsDetections(steps, n - 1, id, born, closed)
    ensures Lifetime(steps, n, id, born, closed) && CountsDetections(steps, n, id, born, closed)
  {
    RunSound(steps, n - 1);
    FrozenStep(After(steps, n - 1), steps[n - 1], id);
  }

  // The occurrence count of a stored finding is the number of detections of its
  // fingerprint while its episode was active.
  lemma {:induction false} OccurrencesCountDetections(steps: seq<Step>, n: nat, id: nat) returns (born: nat, closed: nat)
    requires n <= |steps| && id in After(steps, n).findings
    ensures Lifetime(steps, n, id, born, closed) && CountsDetections(steps, n, id, born, closed)
  {
    if id !in After(steps, n - 1).findings {
      born, closed := n - 1, n;
      CountAtBirth(steps, n, id);
    } else {
      born, closed := OccurrencesCountDetections(steps, n - 1, id);
      if ActiveAt(steps, n - 1, id) {
        CountWhileActive(steps, n, id, born, closed);
        if ActiveAt(steps, n, id) { closed := n; }
      } else {
        CountWhileClosed(steps, n, id, born, closed);
      }
    }
  }

  // ---------- opened reports ----------

  // Step k reports a finding of the fingerprint as opened.
  ghost predicate OpensAt(steps: seq<Step>, k: nat, fp: Fingerprint)
    requires k < |steps|
  {
    steps[k].Evaluate? && steps[k].o.fingerprint == fp && Evaluated(After(steps, k), steps[k].o).1.opens
  }

  // Step k closes the active finding of the fingerprint.
  ghost predicate EndsAt(steps: seq<Step>, k: nat, fp: Fingerprint)
    requires k < |steps|
  {
    var active := ActiveOf(After(steps, k), fp);
    active.Some? && Ends(steps[k], active.value, fp)
  }

  predicate Sleeps(s: Step, id: nat, until: Option<Moment>) { s.Suppress? && s.id == id && s.until == until }

  // Step k suppresses the active finding of the fingerprint until the given time.
  ghost predicate SuppressesAt(steps: seq<Step>, k: nat, fp: Fingerprint, until: Option<Moment>)
    requires k < |steps|
  {
    var active := ActiveOf(After(steps, k), fp);
    active.Some? && Sleeps(steps[k], active.value, until)
  }

  lemma OpenedMeans(db: Db, o: Observation)
    requires Sound(db)
    ensures var active := ActiveOf(db, o.fingerprint);
            Evaluated(db, o).1.opens <==>
            o.detected && (active.None? || (active.value in db.findings && Elapsed(db.findings[active.value], o.at)))
    ensures Evaluated(db, o).1.opens ==>
            var after, active := Evaluated(db, o).0, ActiveOf(Evaluated(db, o).0, o.fingerprint);
            active.Some? && active.value in after.findings && after.findings[active.value].status.Open?
  {
    ActiveBelowMeaning(db.findings, o.fingerprint, db.nextId);
    EvaluatedSound(db, o);
    var after, r := Evaluated(db, o).0, Evaluated(db, o).1;
    if r.opens {
      assert r.finding.value in after.findings && Active(after.findings[r.finding.value]);
      ActiveUnique(after, r.finding.value);
    }
  }

  // What may have happened to the fingerprint between an opened report and step m:
  // its finding ended, is still awake, or sleeps since some later suppression.
  ghost predicate Tracked(steps: seq<Step>, i: nat, m: nat, fp: Fingerprint)
    requires i < m <= |steps|
  {
    || (exists k :: i < k < m && EndsAt(steps, k, fp))
    || (var db, active := After(steps, m), ActiveOf(After(steps, m), fp);
        && active.Some? && active.value in db.findings && Active(db.findings[active.value])
        && (db.findings[active.value].status.Suppressed? ==>
              exists k :: i < k < m && SuppressesAt(steps, k, fp, db.findings[active.value].until)))
  }

  lemma SleepStep(db: Db, s: Step, id: nat)
    requires Sound(db) && id in db.findings && Active(db.findings[id]) && !Ends(s, id, db.findings[id].fingerprint)
    ensures var after := Apply(db, s).findings;
            id in after && (after[id].status.Suppressed? ==>
              Sleeps(s, id, after[id].until) || (db.findings[id].status.Suppressed? && db.findings[id].until == after[id].until))
  {
    StepOnActive(db, s, id);
    if s.Expire? { ExpireAllMeaning(db.findings, s.listed, s.due); }
    if s.Evaluate? { ActiveBelowMeaning(db.findings, s.o.fingerprint, db.nextId); }
  }

  lemma {:induction false} Tracking(steps: seq<Step>, i: nat, m: nat, fp: Fingerprint)
    requires i < m <= |steps| && OpensAt(steps, i, fp)
    ensures Tracked(steps, i, m, fp)
  {
    if m == i + 1 {
      TrackingStart(steps, i, fp);
    } else {
      Tracking(steps, i, m - 1, fp);
      if k :| i < k < m - 1 && EndsAt(steps, k, fp) {
      } else {
        RunSound(steps, m - 1);
        RunSound(steps, m);
        TrackingStep(steps, i, m, fp);
      }
    }
  }

  lemma TrackingStart(steps: seq<Step>, i: nat, fp: Fingerprint)
    requires i < |steps| && OpensAt(steps, i, fp)
    ensures Tracked(steps, i, i + 1, fp)
  {
    RunSound(steps, i);
    OpenedMeans(After(steps, i), steps[i].o);
  }

  lemma TrackingStep(steps: seq<Step>, i: nat, m: nat, fp: Fingerprint)
    requires i + 1 < m <= |steps| && Sound(After(steps, m - 1)) && Sound(After(steps, m))
    requires Tracked(steps, i, m - 1, fp) && !exists k :: i < k < m - 1 && EndsAt(steps, k, fp)
    ensures Tracked(steps, i, m, fp)
  {
    var db, s := After(steps, m - 1), steps[m - 1];
    var id := ActiveOf(db, fp).value;
    ActiveBelowMeaning(db.findings, fp, db.nextId);
    if Ends(s, id, fp) {
      assert EndsAt(steps, m - 1, fp);
    } else {
      StepOnActive(db, s, id);
      SleepStep(db, s, id);
      ActiveUnique(After(steps, m), id);
      var f := After(steps, m).findings[id];
      if f.status.Suppressed? {
        if Sleeps(s, id, f.until) { assert SuppressesAt(steps, m - 1, fp, f.until); }
      }
    }
  }

  // Two opened reports for one fingerprint are separated by the end of the finding (a
  // covered recovery or an operator's resolve) or by a suppression that had run out
  // when the second report was made.
  lemma OpenedOnce(steps: seq<Step>, i: nat, j: nat, fp: Fingerprint) returns (k: nat)
    requires i < j < |steps| && OpensAt(steps, i, fp) && OpensAt(steps, j, fp)
    ensures i < k < j
    ensures EndsAt(steps, k, fp)
         || exists t: Moment :: t <= steps[j].o.at && SuppressesAt(steps, k, fp, Some(t))
  {
    Tracking(steps, i, j, fp);
    RunSound(steps, j);
    OpenedMeans(After(steps, j), steps[j].o);
    if e :| i < e < j && EndsAt(steps, e, fp) {
      k := e;
    } else {
      var f := After(steps, j).findings[ActiveOf(After(steps, j), fp).value];
      k :| i < k < j && SuppressesAt(steps, k, fp, f.until);
      assert SuppressesAt(steps, k, fp, Some(f.until.value));
    }
  }

  // A suppression that ran out can also end silently: a negative observation without
  // coverage puts the finding back to open and reports nothing.
  lemma SilentReopening(db: Db, o: Observation, id: nat)
    requires Sound(db) && id in db.findings && db.findings[id].fingerprint == o.fingerprint
    requires Elapsed(db.findings[id], o.at) && !o.detected && !o.coverage
    ensures var r := Evaluated(db, o); id in r.0.findings && r.0.findings[id].status.Open? && !r.1.opens
  {
    ActiveUnique(db, id);
  }

  // ---------- the store ----------

  predicate ValidObservation(o: Observation) {
    && o.fingerprint.container != "" && |o.fingerprint.container| <= 128
    && o.fingerprint.rule != "" && |o.fingerprint.rule| <= 128
    && o.details.category != "" && o.details.severity != "" && o.details.confidence != ""
    && |o.details.evidence| <= 32
    && forall key :: key in o.details.evidence ==> |key| <= 64 && |o.details.evidence[key]| <= 256
  }

  const MAX_EVIDENCE: nat := 32_768

  datatype Result<T> = Ok(value: T) | Failed

  class SecurityStore {
    var findings: map<nat, Finding>
    var nextId: nat

    ghost function Rows(): Db
      reads this
    {
      Db(findings, nextId)
    }

    constructor ()
      ensures Rows() == EMPTY && Sound(Rows())
    {
      findings, nextId := map[], 1;
    }

    // Required fields, their lengths, and each item of evidence.
    static method ValidateObservation(o: Observation) returns (ok: bool)
      ensures ok <==> ValidObservation(o)
    {
      var fp, d := o.fingerprint, o.details;
      if fp.container == "" || fp.rule == "" || d.category == "" || d.severity == "" || d.confidence == "" { return false; }
      if |fp.container| > 128 || |fp.rule| > 128 || |d.evidence| > 32 { return false; }
      var left := d.evidence.Keys;
      while left != {}
        invariant left <= d.evidence.Keys
        invariant forall key :: key in d.evidence && key !in left ==> |key| <= 64 && |d.evidence[key]| <= 256
        decreases |left|
      {
        var key :| key in left;
        if |key| > 64 || |d.evidence[key]| > 256 { return false; }
        left := left - {key};
      }
      return true;
    }

    // One transaction: find the active row, expire its suppression, then count, open or
    // recover. `encoded` is the size of the evidence as JSON.
    method Evaluate(o: Observation, encoded: nat) returns (r: Result<Report>)
      requires Sound(Rows())
      modifies this
      ensures Sound(Rows())
      ensures r.Ok? <==> ValidObservation(o) && encoded <= 32_768
      ensures r.Ok? ==> (Rows(), r.value) == Evaluated(old(Rows()), o)
      ensures r.Failed? ==> unchanged(this)
    {
      var valid := ValidateObservation(o);
      if !valid || encoded > MAX_EVIDENCE { return Failed; }
      EvaluatedSound(Rows(), o);
      ActiveBelowMeaning(findings, o.fingerprint, nextId);
      var found := ActiveBelow(findings, o.fingerprint, nextId);
      var report := Report(None, false, false);
      var reopened := false;
      if found.Some? && Elapsed(findings[found.value], o.at) {
        findings := findings[found.value := findings[found.value].(status := Open, lastSeen := o.at)];
        reopened := true;
      }
      if o.detected {
        if found.Some? {
          findings := findings[found.value := Seen(findings[found.value], o)];
          report := Report(found, reopened, false);
        } else {
          var episode := MaxEpisode(findings, o.fingerprint, nextId) + 1;
          findings := findings[nextId := Finding(o.fingerprint, episode, Open, 1, o.details, o.at, o.at, None, "", None, NO_HISTORY)];
          report := Report(Some(nextId), true, false);
          nextId := nextId + 1;
        }
      } else if found.Some? && o.coverage {
        findings := findings[found.value := Recover(findings[found.value], o.at)];
        report := Report(found, false, true);
      }
      if found.Some? {
        var f := old(findings)[found.value];
        assert findings == old(findings)[found.value := if o.detected then Seen(Reopen(f, o.at), o)
                                                        else if o.coverage then Recover(Reopen(f, o.at), o.at) else Reopen(f, o.at)];
      }
      r := Ok(report);
    }

    method Acknowledge(id: nat, actor: string, now: Moment) returns (ok: bool)
      requires Sound(Rows())
      modifies this
      ensures Sound(Rows())
      ensures ok <==> !Blank(actor) && id in old(findings) && old(findings)[id].status.Open?
      ensures if ok then Rows() == Apply(old(Rows()), Step.Acknowledge(id, actor, now)) else unchanged(this)
    {
      if Blank(actor) || id !in findings || !findings[id].status.Open? { return false; }
      ApplySound(Rows(), Step.Acknowledge(id, actor, now));
      var history := findings[id].history.(acknowledgedAt := Some(now), acknowledgedBy := actor);
      findings := findings[id := findings[id].(status := Acknowledged, history := history)];
      return true;
    }

    method Resolve(id: nat, actor: string, now: Moment) returns (ok: bool)
      requires Sound(Rows())
      modifies this
      ensures Sound(Rows())
      ensures ok <==> !Blank(actor) && id in old(findings) && Active(old(findings)[id])
      ensures if ok then Rows() == Apply(old(Rows()), Step.Resolve(id, actor, now)) else unchanged(this)
    {
      if Blank(actor) || id !in findings || !Active(findings[id]) { return false; }
      ApplySound(Rows(), Step.Resolve(id, actor, now));
      findings := findings[id := findings[id].(status := Resolved, resolvedAt := Some(now), resolvedBy := actor)];
      return true;
    }

    method Suppress(id: nat, actor: string, reason: string, until: Option<Moment>, now: Moment) returns (ok: bool)
      requires Sound(Rows())
      modifies this
      ensures Sound(Rows())
      ensures ok <==>
        && !Blank(actor) && !Blank(reason) && (until.Some? ==> until.value > now)
        && id in old(findings) && (old(findings)[id].status.Open? || old(findings)[id].status.Acknowledged?)
      ensures if ok then Rows() == Apply(old(Rows()), Step.Suppress(id, until, reason, actor)) else unchanged(this)
    {
      if Blank(actor) || Blank(reason) || (until.Some? && until.value <= now) { return false; }
      if id !in findings || !(findings[id].status.Open? || findings[id].status.Acknowledged?) { return false; }
      ApplySound(Rows(), Step.Suppress(id, until, reason, actor));
      var history := findings[id].history.(suppressionReason := reason, suppressionActor := actor);
      findings := findings[id := findings[id].(status := Suppressed, until := until, history := history)];
      return true;
    }

    // The ids were listed outside the transaction, so each update checks its row again.
    method ExpireSuppressions(listed: seq<nat>, now: Moment) returns (transitioned: seq<nat>)
      requires Sound(Rows())
      modifies this
      ensures Sound(Rows())
      ensures Rows() == Apply(old(Rows()), Expire(listed, DueBy(now)))
      ensures forall k :: 0 <= k < |transitioned| ==>
        transitioned[k] in listed && transitioned[k] in findings && findings[transitioned[k]].status.Open?
    {
      var due := DueBy(now);
      ExpireSound(Rows(), listed, due);
      findings, transitioned := ExpireRows(findings, listed, due);
    }

    static method ExpireRows(rows: map<nat, Finding>, listed: seq<nat>, due: Moment -> bool)
      returns (fs: map<nat, Finding>, transitioned: seq<nat>)
      ensures fs == ExpireAll(rows, listed, due)
      ensures forall k :: 0 <= k < |transitioned| ==>
        transitioned[k] in listed && transitioned[k] in fs && fs[transitioned[k]].status.Open?
    {
      fs, transitioned := rows, [];
      var i := 0;
      while i < |listed|
        invariant 0 <= i <= |listed|
        invariant fs == ExpireAll(rows, listed[..i], due)
        invariant forall k :: 0 <= k < |transitioned| ==>
          transitioned[k] in listed && transitioned[k] in fs && fs[transitioned[k]].status.Open?
      {
        var id := listed[i];
        assert listed[..i + 1][..i] == listed[..i];
        if id in fs && Expires(fs[id], due) {
          fs := fs[id := fs[id].(status := Open)];
          transitioned := transitioned + [id];
        }
        i := i + 1;
      }
      assert listed[..i] == listed;
    }
  }
}

/**
 What one step does to one finding, column by column, and how long a suppression lasts.
 */
module FindingSteps {
  import opened Common
  import opened StoredTime
  import opened Findings

  // The step is an evaluation of the finding's own fingerprint.
  predicate Sees(s: Step, f: Finding) { s.Evaluate? && s.o.fingerprint == f.fingerprint }

  // A suppression with an end that the evaluation has reached.
  predicate WakesUp(s: Step, f: Finding) {
    Sees(s, f) && f.status == Suppressed && f.until.Some? && f.until.value <= s.o.at
  }

  // The status an active finding has after a step, the step that leads there first.
  function StatusAfter(s: Step, id: nat, f: Finding): Status {
    if Sees(s, f) && !s.o.detected && s.o.coverage then Resolved
    else if s.Resolve? && s.id == id then Resolved
    else if s.Acknowledge? && s.id == id && f.status == Open then Status.Acknowledged
    else if s.Suppress? && s.id == id && (f.status == Open || f.status == Status.Acknowledged) then Suppressed
    else if WakesUp(s, f) then Open
    else if s.Expire? && id in s.listed && f.status == Suppressed && f.until.Some? && s.due(f.until.value) then Open
    else f.status
  }

  ghost predicate RowLaw(s: Step, id: nat, f: Finding, g: Finding) {
    && g.status == StatusAfter(s, id, f)
    && g.fingerprint == f.fingerprint && g.episode == f.episode && g.openedAt == f.openedAt
    && g.occurrences == f.occurrences + (if Sees(s, f) && s.o.detected then 1 else 0)
    && g.details == (if Sees(s, f) && s.o.detected then
                       Details(f.details.category, s.o.details.severity, s.o.details.confidence, s.o.details.evidence)
                     else f.details)
    && g.lastSeen == (if Sees(s, f) && (s.o.detected || s.o.coverage || WakesUp(s, f)) then s.o.at else f.lastSeen)
  }

  lemma EvaluatedRow(db: Db, o: Observation, id: nat)
    requires Sound(db) && id in db.findings && Active(db.findings[id])
    ensures id in Evaluated(db, o).0.findings && RowLaw(Evaluate(o), id, db.findings[id], Evaluated(db, o).0.findings[id])
  {
    ActiveUnique(db, id);
    ActiveBelowMeaning(db.findings, o.fingerprint, db.nextId);
  }

  lemma ExpiredRow(db: Db, listed: seq<nat>, due: Moment -> bool, id: nat)
    requires id in db.findings && Active(db.findings[id])
    ensures var s := Expire(listed, due);
            id in Apply(db, s).findings && RowLaw(s, id, db.findings[id], Apply(db, s).findings[id])
  {
    ExpireAllMeaning(db.findings, listed, due);
  }

  lemma OperatedRow(db: Db, s: Step, id: nat)
    requires id in db.findings && Active(db.findings[id]) && !s.Evaluate? && !s.Expire?
    ensures id in Apply(db, s).findings && RowLaw(s, id, db.findings[id], Apply(db, s).findings[id])
  {}

  // The row of an active finding after a step.
  lemma ActiveRow(db: Db, s: Step, id: nat)
    requires Sound(db) && id in db.findings && Active(db.findings[id])
    ensures id in Apply(db, s).findings && RowLaw(s, id, db.findings[id], Apply(db, s).findings[id])
  {
    match s
    case Evaluate(o) => EvaluatedRow(db, o, id);
    case Expire(listed, due) => ExpiredRow(db, listed, due, id);
    case _ => OperatedRow(db, s, id);
  }

  // A resolution is stamped by the collector or by the operator, and by nobody else.
  lemma ActiveResolution(db: Db, s: Step, id: nat)
    requires Sound(db) && id in db.findings && Active(db.findings[id])
    ensures id in Apply(db, s).findings
    ensures var f, g := db.findings[id], Apply(db, s).findings[id];
            if Sees(s, f) && !s.o.detected && s.o.coverage then g.resolvedAt == Some(s.o.at) && g.resolvedBy == "collector"
            else if s.Resolve? && s.id == id then g.resolvedAt == Some(s.at) && g.resolvedBy == s.actor
            else g.resolvedAt == f.resolvedAt && g.resolvedBy == f.resolvedBy
  {
    ActiveUnique(db, id);
    if s.Expire? { ExpireAllMeaning(db.findings, s.listed, s.due); }
    if s.Evaluate? { ActiveBelowMeaning(db.findings, s.o.fingerprint, db.nextId); }
  }

  // Only operators write the end of a suppression and who did what.
  lemma ActiveHistory(db: Db, s: Step, id: nat)
    requires Sound(db) && id in db.findings && Active(db.findings[id])
    ensures id in Apply(db, s).findings
    ensures var f, g := db.findings[id], Apply(db, s).findings[id];
            if s.Acknowledge? && s.id == id && f.status == Open then
              g.until == f.until && g.history == f.history.(acknowledgedAt := Some(s.at), acknowledgedBy := s.actor)
            else if s.Suppress? && s.id == id && (f.status == Open || f.status == Status.Acknowledged) then
              g.until == s.until && g.history == f.history.(suppressionReason := s.reason, suppressionActor := s.actor)
            else g.until == f.until && g.history == f.history
  {
    ActiveUnique(db, id);
    if s.Expire? { ExpireAllMeaning(db.findings, s.listed, s.due); }
    if s.Evaluate? { ActiveBelowMeaning(db.findings, s.o.fingerprint, db.nextId); }
  }

  // A detection leaves an acknowledged finding acknowledged, and a suppressed one
  // suppressed until its end.
  lemma DetectionKeepsStatus(db: Db, o: Observation, id: nat)
    requires Sound(db) && id in db.findings && Active(db.findings[id]) && o.detected
    requires o.fingerprint == db.findings[id].fingerprint
    requires db.findings[id].status == Suppressed ==> db.findings[id].until.None? || o.at < db.findings[id].until.value
    ensures id in Evaluated(db, o).0.findings
    ensures var f, g := db.findings[id], Evaluated(db, o).0.findings[id];
            g.status == f.status && g.until == f.until && g.history == f.history && !Evaluated(db, o).1.opens
  {
    ActiveRow(db, Evaluate(o), id);
    ActiveHistory(db, Evaluate(o), id);
    OpenedMeans(db, o);
    ActiveUnique(db, id);
  }

  // A new finding is the observation, as the next episode of its fingerprint: one more
  // than some stored one and than no other, or the first.
  lemma NewRow(db: Db, s: Step, id: nat)
    requires Sound(db) && id !in db.findings && id in Apply(db, s).findings
    ensures s.Evaluate? && s.o.detected && id == db.nextId
    ensures var f := Apply(db, s).findings[id];
            && f == Finding(s.o.fingerprint, f.episode, Open, 1, s.o.details, s.o.at, s.o.at, None, "", None, History(None, "", "", ""))
            && (forall a :: a in db.findings && db.findings[a].fingerprint == f.fingerprint ==> db.findings[a].episode < f.episode)
            && (f.episode == 1 || exists a :: a in db.findings && db.findings[a].fingerprint == f.fingerprint && db.findings[a].episode + 1 == f.episode)
  {
    if s.Expire? { ExpireAllMeaning(db.findings, s.listed, s.due); }
    BornStep(db, s, id);
    MaxEpisodeBound(db.findings, s.o.fingerprint, db.nextId);
    MaxEpisodeFound(db.findings, s.o.fingerprint, db.nextId);
  }

  lemma {:induction false} MaxEpisodeFound(fs: map<nat, Finding>, fp: Fingerprint, n: nat)
    ensures MaxEpisode(fs, fp, n) == 0 || exists a :: a in fs && fs[a].fingerprint == fp && fs[a].episode == MaxEpisode(fs, fp, n)
  {
    if n > 0 { MaxEpisodeFound(fs, fp, n - 1); }
  }

  // ---------- how long a suppression lasts ----------

  // The step ends the suppression of finding `id`: a recovery, a resolve, an evaluation
  // at or after its end, or an expiry.
  predicate EndsSleep(s: Step, id: nat, fp: Fingerprint, until: Option<Moment>) {
    || (s.Evaluate? && s.o.fingerprint == fp && ((!s.o.detected && s.o.coverage) || (until.Some? && until.value <= s.o.at)))
    || (s.Resolve? && s.id == id)
    || (s.Expire? && id in s.listed && until.Some? && s.due(until.value))
  }

  ghost predicate Asleep(db: Db, id: nat, f: Finding) {
    && id in db.findings && db.findings[id].status == Suppressed
    && db.findings[id].until == f.until && db.findings[id].history == f.history && db.findings[id].fingerprint == f.fingerprint
  }

  lemma SleepLaw(db: Db, s: Step, id: nat, f: Finding)
    requires Sound(db) && Asleep(db, id, f)
    ensures Asleep(Apply(db, s), id, f) <==> !EndsSleep(s, id, f.fingerprint, f.until)
  {
    ActiveRow(db, s, id);
    ActiveHistory(db, s, id);
  }

  ghost predicate SleepsThrough(steps: seq<Step>, m: nat, n: nat, id: nat, f: Finding)
    requires n <= |steps|
  {
    forall k :: m <= k <= n ==> Asleep(After(steps, k), id, f)
  }

  ghost predicate Undisturbed(steps: seq<Step>, m: nat, n: nat, id: nat, f: Finding)
    requires n <= |steps|
  {
    forall k :: m <= k < n ==> !EndsSleep(steps[k], id, f.fingerprint, f.until)
  }

  // Through every run a finding sleeps on, with the same end, reason and actor, exactly
  // until such a step.
  lemma {:induction false} SuppressionLasts(steps: seq<Step>, m: nat, n: nat, id: nat, f: Finding)
    requires m <= n <= |steps| && Asleep(After(steps, m), id, f)
    ensures SleepsThrough(steps, m, n, id, f) <==> Undisturbed(steps, m, n, id, f)
    decreases n
  {
    if m < n {
      SuppressionLasts(steps, m, n - 1, id, f);
      SleepSnoc(steps, m, n, id, f);
      RunSound(steps, n - 1);
      if Asleep(After(steps, n - 1), id, f) { SleepLaw(After(steps, n - 1), steps[n - 1], id, f); }
    }
  }

  lemma SleepSnoc(steps: seq<Step>, m: nat, n: nat, id: nat, f: Finding)
    requires m < n <= |steps|
    ensures SleepsThrough(steps, m, n, id, f) <==> SleepsThrough(steps, m, n - 1, id, f) && Asleep(Apply(After(steps, n - 1), steps[n - 1]), id, f)
    ensures SleepsThrough(steps, m, n - 1, id, f) ==> Asleep(After(steps, n - 1), id, f)
    ensures Undisturbed(steps, m, n, id, f) <==>
              Undisturbed(steps, m, n - 1, id, f) && !EndsSleep(steps[n - 1], id, f.fingerprint, f.until)
  {
    assert After(steps, n) == Apply(After(steps, n - 1), steps[n - 1]);
  }

  // The stored comparison of an expiry: the end has come, up to the order of trimmed texts
  // within one second.
  lemma DueMeans(now: Moment, until: Moment)
    requires Stored(now) && Stored(until)
    ensures DueBy(now)(until) <==> (until <= now && !Misordered(until, now)) || Misordered(now, until)
    ensures Second(until) != Second(now) ==> (DueBy(now)(until) <==> until <= now)
  {
    TextAtMostMeaning(until, now);
  }
}

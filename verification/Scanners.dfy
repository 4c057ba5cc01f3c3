/**
 The process and writable-layer scanners: bounded snapshots, the rules evaluated on
 them, and what a failed or truncated scan may do to stored findings.
 */
module Scanners {
  import opened Common
  import opened StoredTime
  import F = Findings

  datatype Process = Process(pid: nat, parent: nat, user: string, command: string)

  datatype ChangeKind = Added | Modified | Deleted

  datatype Change = Change(kind: ChangeKind, path: string)

  // Rows kept by the collector, and whether the daemon had no more.
  datatype Snapshot<T> = Snapshot(rows: seq<T>, complete: bool)

  datatype Policy = Policy(executables: seq<string>, writable: seq<string>)

  // One rule's verdict; `path` is the evidence the correlation rule compares.
  datatype Verdict = Verdict(rule: string, detected: bool, coverage: bool, path: string)

  const KERNEL_LIKE := "process.kernel_like"
  const HIGH_RISK := "process.high_risk_path"
  const MISMATCH := "process.parent_child_mismatch"
  const PID_SPIKE := "process.pid_spike"
  const USER_LOCAL := "diff.user_local_executable"
  const ADDED_EXECUTABLE := "diff.added_executable"
  const RUNTIME := "diff.runtime_modification"
  const CORRELATION := "correlation.added_executable_running"

  // ---------- text tests ----------

  predicate HasPrefix(s: string, p: string) { p <= s }

  predicate HasSuffix(s: string, p: string) { |p| <= |s| && s[|s| - |p|..] == p }

  predicate OccursAt(s: string, p: string, i: nat) { i + |p| <= |s| && s[i..i + |p|] == p }

  predicate Contains(s: string, p: string) { exists i :: 0 <= i <= |s| && OccursAt(s, p, i) }

  function Lower(c: char): char { if 'A' <= c <= 'Z' then (c - 'A') + 'a' else c }

  predicate IsRoot(user: string) {
    user == "0" || (|user| == 4 && Lower(user[0]) == 'r' && Lower(user[1]) == 'o' && Lower(user[2]) == 'o' && Lower(user[3]) == 't')
  }

  predicate KernelLike(p: Process) { HasPrefix(p.command, "[") && HasSuffix(p.command, "]") }

  predicate HighRiskExecutable(command: string) {
    HasPrefix(command, "/tmp/") || HasPrefix(command, "/var/tmp/") || HasPrefix(command, "/dev/shm/") || Contains(command, "/.local/bin/")
  }

  predicate PathWithin(value: string, prefix: string) {
    var p := if HasSuffix(prefix, "/") then prefix[..|prefix| - 1] else prefix;
    value == p || HasPrefix(value, p + "/")
  }

  predicate PathAllowed(value: string, allowed: seq<string>) {
    exists i :: 0 <= i < |allowed| && PathWithin(value, allowed[i])
  }

  predicate ExecutableLocation(value: string) {
    Contains(value, "/.local/bin/") ||
    PathAllowed(value, ["/tmp", "/var/tmp", "/dev/shm", "/bin", "/sbin", "/usr/bin", "/usr/sbin", "/usr/local/bin"])
  }

  predicate RuntimeSensitive(value: string) {
    PathAllowed(value, ["/etc", "/bin", "/sbin", "/usr/bin", "/usr/sbin", "/usr/local/bin", "/opt", "/app"])
  }

  // ---------- the rules as first matches ----------

  predicate Risky(p: Process, policy: Policy) { HighRiskExecutable(p.command) && p.command !in policy.executables }

  predicate UserLocal(c: Change, policy: Policy) {
    && !PathAllowed(c.path, policy.writable) && !c.kind.Deleted?
    && (PathWithin(c.path, "/usr/local/bin") || Contains(c.path, "/.local/bin/"))
  }

  predicate AddedExecutable(c: Change, policy: Policy) {
    !PathAllowed(c.path, policy.writable) && c.kind.Added? && ExecutableLocation(c.path)
  }

  predicate RuntimeChange(c: Change, policy: Policy) {
    !PathAllowed(c.path, policy.writable) && !c.kind.Added? && RuntimeSensitive(c.path)
  }

  // The first row a rule matches.
  function First<T>(xs: seq<T>, p: T -> bool): Option<T> {
    if xs == [] then None else if p(xs[0]) then Some(xs[0]) else First(xs[1..], p)
  }

  // More rows never change a first match.
  lemma {:induction false} FirstStable<T>(xs: seq<T>, ys: seq<T>, p: T -> bool)
    requires xs <= ys && First(xs, p).Some?
    ensures First(ys, p) == First(xs, p)
  {
    if !p(xs[0]) {
      assert xs[1..] <= ys[1..];
      FirstStable(xs[1..], ys[1..], p);
    }
  }

  lemma {:induction false} FirstAppend<T>(xs: seq<T>, x: T, p: T -> bool)
    ensures First(xs + [x], p) == if First(xs, p).Some? then First(xs, p) else if p(x) then Some(x) else None
  {
    if xs == [] {
      assert xs + [x] == [x];
    } else {
      assert (xs + [x])[1..] == xs[1..] + [x];
      FirstAppend(xs[1..], x, p);
    }
  }

  // parents[process.PID] = process, in order: the last row with a PID wins.
  function Parents(ps: seq<Process>): map<nat, Process> {
    if ps == [] then map[] else Parents(ps[..|ps| - 1])[ps[|ps| - 1].pid := ps[|ps| - 1]]
  }

  predicate Mismatched(parents: map<nat, Process>, p: Process) {
    p.parent in parents && IsRoot(p.user) && !IsRoot(parents[p.parent].user)
  }

  predicate AnyMismatch(ps: seq<Process>) {
    exists i :: 0 <= i < |ps| && Mismatched(Parents(ps), ps[i])
  }

  function ProcessVerdicts(s: Snapshot<Process>, policy: Policy, sustained: bool): seq<Verdict> {
    var risky := First(s.rows, (p: Process) => Risky(p, policy));
    [Verdict(KERNEL_LIKE, First(s.rows, (p: Process) => KernelLike(p)).Some?, s.complete, ""),
     Verdict(HIGH_RISK, risky.Some?, s.complete, if risky.Some? then risky.value.command else ""),
     Verdict(MISMATCH, AnyMismatch(s.rows), s.complete, ""),
     Verdict(PID_SPIKE, sustained, s.complete, "")]
  }

  function PathOf(c: Option<Change>): string { if c.Some? then c.value.path else "" }

  function LayerVerdicts(s: Snapshot<Change>, policy: Policy): seq<Verdict> {
    var local := First(s.rows, (c: Change) => UserLocal(c, policy));
    var added := First(s.rows, (c: Change) => AddedExecutable(c, policy));
    var runtime := First(s.rows, (c: Change) => RuntimeChange(c, policy));
    [Verdict(USER_LOCAL, local.Some?, s.complete, PathOf(local)),
     Verdict(ADDED_EXECUTABLE, added.Some?, s.complete, PathOf(added)),
     Verdict(RUNTIME, runtime.Some?, s.complete, PathOf(runtime))]
  }

  // evidenceForRule: path and coverage of the first verdict of a rule.
  function EvidenceFor(vs: seq<Verdict>, rule: string): (string, bool) {
    if vs == [] then ("", false)
    else if vs[0].rule == rule then (if vs[0].detected then vs[0].path else "", vs[0].coverage)
    else EvidenceFor(vs[1..], rule)
  }

  function Correlate(processes: seq<Verdict>, layers: seq<Verdict>): Verdict {
    var p, d := EvidenceFor(processes, HIGH_RISK), EvidenceFor(layers, ADDED_EXECUTABLE);
    var hit := p.0 != "" && p.0 == d.0;
    Verdict(CORRELATION, hit, p.1 && d.1, if hit then p.0 else "")
  }

  // ---------- the scans ----------

  datatype Fetch<T> = Backoff | Error | Fetched(snapshot: Snapshot<T>)

  function Usable<T>(f: Fetch<T>): Snapshot<T> {
    if f.Fetched? then f.snapshot else Snapshot([], false)
  }

  // The process scanner evaluates nothing when the daemon asks it to back off.
  function ProcessScan(f: Fetch<Process>, policy: Policy, sustained: bool): seq<Verdict> {
    if f.Backoff? then [] else ProcessVerdicts(Usable(f), policy, sustained)
  }

  // The layer scanner; `processes` is absent when the client cannot list processes.
  function LayerScan(layers: Fetch<Change>, processes: Option<Fetch<Process>>, policy: Policy): seq<Verdict> {
    if layers.Backoff? || (processes.Some? && processes.value.Backoff?) then []
    else
      var ds := LayerVerdicts(Usable(layers), policy);
      var ps := if processes.Some? then ProcessVerdicts(Usable(processes.value), policy, false) else [];
      ds + [Correlate(ps, ds)]
  }

  predicate ProcessRule(rule: string) { rule == KERNEL_LIKE || rule == HIGH_RISK || rule == MISMATCH || rule == PID_SPIKE }

  function DetailsOf(v: Verdict): F.Details {
    F.Details(if ProcessRule(v.rule) then "process" else "drift",
              if v.rule == KERNEL_LIKE || v.rule == CORRELATION then "critical" else "high", "high",
              if v.path == "" then map[] else map["path" := v.path])
  }

  function Observe(v: Verdict, container: string, baseline: string, at: Moment): F.Observation {
    F.Observation(F.Fingerprint(container, v.rule, baseline), v.detected, v.coverage, DetailsOf(v), at)
  }

  // Every verdict is evaluated in turn.
  function EvaluateAll(db: F.Db, vs: seq<Verdict>, container: string, baseline: string, at: Moment): F.Db
    decreases |vs|
  {
    if vs == [] then db
    else EvaluateAll(F.Evaluated(db, Observe(vs[0], container, baseline, at)).0, vs[1..], container, baseline, at)
  }

  // A verdict list that cannot close findings of a rule.
  predicate CannotClose(vs: seq<Verdict>, rule: string) {
    forall i :: 0 <= i < |vs| && vs[i].rule == rule ==> vs[i].detected || !vs[i].coverage
  }

  lemma {:induction false} StaysActive(db: F.Db, vs: seq<Verdict>, container: string, baseline: string, at: Moment, id: nat)
    requires F.Sound(db) && id in db.findings && F.Active(db.findings[id])
    requires CannotClose(vs, db.findings[id].fingerprint.rule)
    ensures var after := EvaluateAll(db, vs, container, baseline, at);
            F.Sound(after) && id in after.findings && F.Active(after.findings[id])
    decreases |vs|
  {
    if vs != [] {
      var o := Observe(vs[0], container, baseline, at);
      F.EvaluatedSound(db, o);
      F.StepOnActive(db, F.Evaluate(o), id);
      assert !F.Ends(F.Evaluate(o), id, db.findings[id].fingerprint);
      StaysActive(F.Evaluated(db, o).0, vs[1..], container, baseline, at, id);
    }
  }

  // A process scan that failed, was told to back off, or was cut short resolves no
  // finding at all.
  lemma PartialProcessScanResolvesNothing(
      db: F.Db, f: Fetch<Process>, policy: Policy, sustained: bool, container: string, baseline: string, at: Moment, id: nat)
    requires F.Sound(db) && id in db.findings && F.Active(db.findings[id])
    requires f.Fetched? ==> !f.snapshot.complete
    ensures var after := EvaluateAll(db, ProcessScan(f, policy, sustained), container, baseline, at);
            id in after.findings && F.Active(after.findings[id])
  {
    StaysActive(db, ProcessScan(f, policy, sustained), container, baseline, at, id);
  }

  // The same for the layer scan, correlation included.
  lemma PartialLayerScanResolvesNothing(
      db: F.Db, layers: Fetch<Change>, processes: Option<Fetch<Process>>, policy: Policy,
      container: string, baseline: string, at: Moment, id: nat)
    requires F.Sound(db) && id in db.findings && F.Active(db.findings[id])
    requires layers.Fetched? ==> !layers.snapshot.complete
    ensures var after := EvaluateAll(db, LayerScan(layers, processes, policy), container, baseline, at);
            id in after.findings && F.Active(after.findings[id])
  {
    LayerEvidence(Usable(layers), policy);
    StaysActive(db, LayerScan(layers, processes, policy), container, baseline, at, id);
  }

  // A complete layer scan beside a missing or partial process list may resolve layer
  // findings but never a correlation.
  lemma PartialProcessesKeepCorrelation(
      db: F.Db, layers: Fetch<Change>, processes: Option<Fetch<Process>>, policy: Policy,
      container: string, baseline: string, at: Moment, id: nat)
    requires F.Sound(db) && id in db.findings && F.Active(db.findings[id])
    requires db.findings[id].fingerprint.rule == CORRELATION
    requires processes.Some? && processes.value.Fetched? ==> !processes.value.snapshot.complete
    ensures var after := EvaluateAll(db, LayerScan(layers, processes, policy), container, baseline, at);
            id in after.findings && F.Active(after.findings[id])
  {
    if processes.Some? { ProcessEvidence(Usable(processes.value), policy); }
    assert USER_LOCAL[0] != CORRELATION[0] && ADDED_EXECUTABLE[0] != CORRELATION[0] && RUNTIME[0] != CORRELATION[0];
    StaysActive(db, LayerScan(layers, processes, policy), container, baseline, at, id);
  }

  // ---------- truncation loses no detection ----------

  predicate Detected(vs: seq<Verdict>, rule: string) {
    exists i :: 0 <= i < |vs| && vs[i].rule == rule && vs[i].detected
  }

  predicate UniquePids(ps: seq<Process>) {
    forall i, j :: 0 <= i < j < |ps| ==> ps[i].pid != ps[j].pid
  }

  lemma {:induction false} ParentsMeaning(ps: seq<Process>, pid: nat)
    ensures pid in Parents(ps) <==> exists i :: 0 <= i < |ps| && ps[i].pid == pid
    ensures pid in Parents(ps) ==> exists i :: 0 <= i < |ps| && ps[i].pid == pid && Parents(ps)[pid] == ps[i]
  {
    if ps != [] {
      var n := |ps| - 1;
      ParentsMeaning(ps[..n], pid);
      if pid == ps[n].pid {
        assert Parents(ps)[pid] == ps[n];
      } else if pid in Parents(ps) {
        var i :| 0 <= i < n && ps[..n][i].pid == pid && Parents(ps[..n])[pid] == ps[..n][i];
        assert ps[i].pid == pid && Parents(ps)[pid] == ps[i];
      } else {
        forall i | 0 <= i < |ps|
          ensures ps[i].pid != pid
        {
          if i < n { assert ps[..n][i].pid != pid; }
        }
      }
    }
  }

  // A parent seen in the kept rows is the same process in the whole list, as long as
  // no row that was cut off reuses a kept PID.
  lemma MismatchStable(kept: seq<Process>, all: seq<Process>)
    requires kept <= all && AnyMismatch(kept)
    requires forall i, j :: 0 <= i < |kept| <= j < |all| ==> all[i].pid != all[j].pid
    ensures AnyMismatch(all)
  {
    var i :| 0 <= i < |kept| && Mismatched(Parents(kept), kept[i]);
    ParentsExtend(kept, all, kept[i].parent);
    assert Mismatched(Parents(all), all[i]);
  }

  lemma {:induction false} ParentsExtend(kept: seq<Process>, all: seq<Process>, pid: nat)
    requires kept <= all && pid in Parents(kept)
    requires forall i, j :: 0 <= i < |kept| <= j < |all| ==> all[i].pid != all[j].pid
    ensures pid in Parents(all) && Parents(all)[pid] == Parents(kept)[pid]
    decreases |all|
  {
    if |all| > |kept| {
      var n := |all| - 1;
      ParentsExtend(kept, all[..n], pid);
      ParentsMeaning(kept, pid);
      var i :| 0 <= i < |kept| && kept[i].pid == pid;
      assert all[i].pid == pid != all[n].pid;
    } else {
      assert all == kept;
    }
  }

  // Every process rule but the spike that fires on the kept rows also fires on the
  // whole list.
  lemma TruncationKeepsProcessDetections(all: seq<Process>, k: nat, policy: Policy, sustained: bool, sustainedAll: bool, rule: string)
    requires k <= |all| && UniquePids(all) && rule != PID_SPIKE
    requires Detected(ProcessVerdicts(Snapshot(all[..k], false), policy, sustained), rule)
    ensures Detected(ProcessVerdicts(Snapshot(all, true), policy, sustainedAll), rule)
  {
    var kept := ProcessVerdicts(Snapshot(all[..k], false), policy, sustained);
    var full := ProcessVerdicts(Snapshot(all, true), policy, sustainedAll);
    var i :| 0 <= i < |kept| && kept[i].rule == rule && kept[i].detected;
    if i == 0 { FirstStable(all[..k], all, (p: Process) => KernelLike(p)); }
    else if i == 1 { FirstStable(all[..k], all, (p: Process) => Risky(p, policy)); }
    else if i == 2 { MismatchStable(all[..k], all); }
    assert full[i].rule == rule && full[i].detected;
  }

  // Without unique PIDs the claim fails: a cut-off row may overwrite the parent.
  lemma ReusedPidHidesMismatch()
    ensures var kept := [Process(1, 0, "app", "sh"), Process(2, 1, "root", "sh")];
            AnyMismatch(kept) && !AnyMismatch(kept + [Process(1, 0, "root", "sh")])
  {
    var kept := [Process(1, 0, "app", "sh"), Process(2, 1, "root", "sh")];
    var all := kept + [Process(1, 0, "root", "sh")];
    assert kept[..1] == [kept[0]] && kept[..1][..0] == [];
    assert Parents(kept[..1]) == map[1 := kept[0]];
    assert Parents(kept) == map[1 := kept[0], 2 := kept[1]];
    assert Mismatched(Parents(kept), kept[1]);
    assert all[..2] == kept;
    assert Parents(all) == map[1 := all[2], 2 := kept[1]];
  }

  lemma TruncationKeepsLayerDetections(all: seq<Change>, k: nat, policy: Policy, rule: string)
    requires k <= |all|
    requires Detected(LayerVerdicts(Snapshot(all[..k], false), policy), rule)
    ensures Detected(LayerVerdicts(Snapshot(all, true), policy), rule)
  {
    var kept := LayerVerdicts(Snapshot(all[..k], false), policy);
    var full := LayerVerdicts(Snapshot(all, true), policy);
    var i :| 0 <= i < |kept| && kept[i].rule == rule && kept[i].detected;
    if i == 0 { FirstStable(all[..k], all, (c: Change) => UserLocal(c, policy)); }
    else if i == 1 { FirstStable(all[..k], all, (c: Change) => AddedExecutable(c, policy)); }
    else { FirstStable(all[..k], all, (c: Change) => RuntimeChange(c, policy)); }
    assert full[i].rule == rule && full[i].detected;
  }

  // The correlation compares two first matches, so it too survives more rows.
  lemma TruncationKeepsCorrelation(ps: seq<Process>, j: nat, cs: seq<Change>, k: nat, policy: Policy)
    requires j <= |ps| && k <= |cs|
    requires Correlate(ProcessVerdicts(Snapshot(ps[..j], false), policy, false), LayerVerdicts(Snapshot(cs[..k], false), policy)).detected
    ensures Correlate(ProcessVerdicts(Snapshot(ps, true), policy, false), LayerVerdicts(Snapshot(cs, true), policy)).detected
  {
    ProcessEvidence(Snapshot(ps[..j], false), policy);
    ProcessEvidence(Snapshot(ps, true), policy);
    LayerEvidence(Snapshot(cs[..k], false), policy);
    LayerEvidence(Snapshot(cs, true), policy);
    FirstStable(ps[..j], ps, (p: Process) => Risky(p, policy));
    FirstStable(cs[..k], cs, (c: Change) => AddedExecutable(c, policy));
  }

  lemma ProcessEvidence(s: Snapshot<Process>, policy: Policy)
    ensures var risky := First(s.rows, (p: Process) => Risky(p, policy));
            EvidenceFor(ProcessVerdicts(s, policy, false), HIGH_RISK) == (if risky.Some? then risky.value.command else "", s.complete)
  {
    var vs := ProcessVerdicts(s, policy, false);
    assert vs[1..][0] == vs[1];
  }

  lemma LayerEvidence(s: Snapshot<Change>, policy: Policy)
    ensures var added := First(s.rows, (c: Change) => AddedExecutable(c, policy));
            EvidenceFor(LayerVerdicts(s, policy), ADDED_EXECUTABLE) == (PathOf(added), s.complete)
  {
    var vs := LayerVerdicts(s, policy);
    assert vs[1..][0] == vs[1];
  }

  // ---------- the loops ----------

  // EvaluateProcesses: one pass for the parents map and the first matches, one for the
  // parent-child rule.
  method EvaluateProcesses(s: Snapshot<Process>, policy: Policy, sustained: bool) returns (vs: seq<Verdict>)
    ensures vs == ProcessVerdicts(s, policy, sustained)
  {
    var kernelLike, highRisk, parents := MatchProcesses(s.rows, policy);
    var mismatch := false;
    var i := 0;
    while i < |s.rows| && !mismatch
      invariant 0 <= i <= |s.rows|
      invariant mismatch <==> exists k :: 0 <= k < i && Mismatched(parents, s.rows[k])
    {
      if Mismatched(parents, s.rows[i]) { mismatch := true; }
      i := i + 1;
    }
    vs := [Verdict(KERNEL_LIKE, kernelLike, s.complete, ""), Verdict(HIGH_RISK, highRisk != "", s.complete, highRisk),
           Verdict(MISMATCH, mismatch, s.complete, ""), Verdict(PID_SPIKE, sustained, s.complete, "")];
  }

  // The command of a first risky process; no command that matches is empty.
  ghost predicate HoldsCommand(found: string, first: Option<Process>) {
    found == (if first.Some? then first.value.command else "") && (first.Some? ==> found != "")
  }

  // What one pass has found in the rows so far.
  ghost predicate Matched(rows: seq<Process>, policy: Policy, kernelLike: bool, highRisk: string, parents: map<nat, Process>) {
    && parents == Parents(rows)
    && kernelLike == First(rows, (p: Process) => KernelLike(p)).Some?
    && HoldsCommand(highRisk, First(rows, (p: Process) => Risky(p, policy)))
  }

  lemma MatchNext(rows: seq<Process>, p: Process, policy: Policy, kernelLike: bool, highRisk: string, parents: map<nat, Process>)
    requires Matched(rows, policy, kernelLike, highRisk, parents)
    ensures Matched(rows + [p], policy, kernelLike || KernelLike(p),
                    if highRisk == "" && Risky(p, policy) then p.command else highRisk, parents[p.pid := p])
  {
    assert (rows + [p])[..|rows|] == rows;
    FirstAppend(rows, p, (p: Process) => KernelLike(p));
    FirstAppend(rows, p, (p: Process) => Risky(p, policy));
    if Risky(p, policy) { RiskyHasName(p.command); }
  }

  method MatchProcesses(rows: seq<Process>, policy: Policy) returns (kernelLike: bool, highRisk: string, parents: map<nat, Process>)
    ensures Matched(rows, policy, kernelLike, highRisk, parents)
  {
    kernelLike, highRisk, parents := false, "", map[];
    var i := 0;
    while i < |rows|
      invariant 0 <= i <= |rows| && Matched(rows[..i], policy, kernelLike, highRisk, parents)
    {
      var p := rows[i];
      MatchNext(rows[..i], p, policy, kernelLike, highRisk, parents);
      assert rows[..i + 1] == rows[..i] + [p];
      parents := parents[p.pid := p];
      if KernelLike(p) { kernelLike := true; }
      if highRisk == "" && Risky(p, policy) { highRisk := p.command; }
      i := i + 1;
    }
    assert rows[..i] == rows;
  }

  lemma RiskyHasName(command: string)
    requires HighRiskExecutable(command)
    ensures command != ""
  {
    if Contains(command, "/.local/bin/") { ContainsHasName(command); }
  }

  lemma WithinHasName(value: string, prefix: string)
    requires PathWithin(value, prefix) && |prefix| >= 2
    ensures value != ""
  {}

  lemma AllowedHasName(value: string, prefixes: seq<string>)
    requires PathAllowed(value, prefixes) && forall i :: 0 <= i < |prefixes| ==> |prefixes[i]| >= 2
    ensures value != ""
  {
    var i :| 0 <= i < |prefixes| && PathWithin(value, prefixes[i]);
    WithinHasName(value, prefixes[i]);
  }

  lemma ContainsHasName(value: string)
    requires Contains(value, "/.local/bin/")
    ensures value != ""
  {
    var i :| 0 <= i <= |value| && OccursAt(value, "/.local/bin/", i);
    assert |"/.local/bin/"| == 12;
  }

  lemma UserLocalHasName(value: string)
    requires PathWithin(value, "/usr/local/bin") || Contains(value, "/.local/bin/")
    ensures value != ""
  {
    if Contains(value, "/.local/bin/") { ContainsHasName(value); } else { WithinHasName(value, "/usr/local/bin"); }
  }

  lemma ExecutableHasName(value: string)
    requires ExecutableLocation(value)
    ensures value != ""
  {
    if Contains(value, "/.local/bin/") {
      ContainsHasName(value);
    } else {
      AllowedHasName(value, ["/tmp", "/var/tmp", "/dev/shm", "/bin", "/sbin", "/usr/bin", "/usr/sbin", "/usr/local/bin"]);
    }
  }

  lemma SensitiveHasName(value: string)
    requires RuntimeSensitive(value)
    ensures value != ""
  {
    AllowedHasName(value, ["/etc", "/bin", "/sbin", "/usr/bin", "/usr/sbin", "/usr/local/bin", "/opt", "/app"]);
  }

  lemma MatchHasName(c: Change, policy: Policy)
    requires UserLocal(c, policy) || AddedExecutable(c, policy) || RuntimeChange(c, policy)
    ensures c.path != ""
  {
    if UserLocal(c, policy) { UserLocalHasName(c.path); }
    else if AddedExecutable(c, policy) { ExecutableHasName(c.path); }
    else { SensitiveHasName(c.path); }
  }

  // A path variable that is still empty is filled by the first match.
  ghost predicate Holds(found: string, first: Option<Change>) {
    found == PathOf(first) && (first.Some? ==> found != "")
  }

  // EvaluateLayerChanges: one pass with three first-match variables; an allowed path
  // skips all three rules.
  method EvaluateLayerChanges(s: Snapshot<Change>, policy: Policy) returns (vs: seq<Verdict>)
    ensures vs == LayerVerdicts(s, policy)
  {
    var local, added, runtime := "", "", "";
    var i := 0;
    while i < |s.rows|
      invariant 0 <= i <= |s.rows|
      invariant Holds(local, First(s.rows[..i], (c: Change) => UserLocal(c, policy)))
      invariant Holds(added, First(s.rows[..i], (c: Change) => AddedExecutable(c, policy)))
      invariant Holds(runtime, First(s.rows[..i], (c: Change) => RuntimeChange(c, policy)))
    {
      var c := s.rows[i];
      assert s.rows[..i + 1] == s.rows[..i] + [c];
      FirstAppend(s.rows[..i], c, (c: Change) => UserLocal(c, policy));
      FirstAppend(s.rows[..i], c, (c: Change) => AddedExecutable(c, policy));
      FirstAppend(s.rows[..i], c, (c: Change) => RuntimeChange(c, policy));
      if UserLocal(c, policy) || AddedExecutable(c, policy) || RuntimeChange(c, policy) { MatchHasName(c, policy); }
      i := i + 1;
      if PathAllowed(c.path, policy.writable) { continue; }
      if local == "" && (c.kind.Added? || c.kind.Modified?) && (PathWithin(c.path, "/usr/local/bin") || Contains(c.path, "/.local/bin/")) {
        local := c.path;
      }
      if added == "" && c.kind.Added? && ExecutableLocation(c.path) { added := c.path; }
      if runtime == "" && (c.kind.Modified? || c.kind.Deleted?) && RuntimeSensitive(c.path) { runtime := c.path; }
    }
    assert s.rows[..i] == s.rows;
    vs := [Verdict(USER_LOCAL, local != "", s.complete, local), Verdict(ADDED_EXECUTABLE, added != "", s.complete, added),
           Verdict(RUNTIME, runtime != "", s.complete, runtime)];
  }

  // ---------- process-count spikes ----------

  predicate Spike(baseline: nat, count: nat) {
    baseline > 0 && count >= (if baseline * 3 > baseline + 20 then baseline * 3 else baseline + 20)
  }

  // The counts of the complete snapshots, oldest first.
  function Counts(history: seq<Snapshot<Process>>): seq<nat> {
    if history == [] then []
    else
      var last := history[|history| - 1];
      Counts(history[..|history| - 1]) + if last.complete then [|last.rows|] else []
  }

  // Spiking snapshots in a row at the end, judged against the first complete one.
  function Streak(counts: seq<nat>): nat {
    if |counts| <= 1 || !Spike(counts[0], counts[|counts| - 1]) then 0
    else 1 + Streak(counts[..|counts| - 1])
  }

  class ProcessScanner {
    var baselines: map<string, nat>
    var spikes: map<string, nat>

    // What the maps hold for a container after a history of its snapshots.
    ghost predicate Remembers(id: string, history: seq<Snapshot<Process>>)
      reads this
    {
      var counts := Counts(history);
      && (id in baselines <==> counts != [])
      && (counts != [] ==> baselines[id] == counts[0])
      && (if id in spikes then spikes[id] else 0) == Streak(counts)
    }

    constructor ()
      ensures forall id :: Remembers(id, [])
    {
      baselines, spikes := map[], map[];
    }

    // A spike is sustained only by two complete spiking snapshots in a row; a partial
    // snapshot neither counts nor breaks the row.
    method ObserveCount(id: string, s: Snapshot<Process>, ghost history: seq<Snapshot<Process>>) returns (baseline: nat, sustained: bool)
      requires Remembers(id, history)
      modifies this
      ensures Remembers(id, history + [s])
      ensures sustained <==> s.complete && Streak(Counts(history + [s])) >= 2
      ensures Counts(history + [s]) != [] ==> baseline == Counts(history + [s])[0]
      ensures forall other :: other != id ==>
        (other in baselines <==> other in old(baselines)) && (other in spikes <==> other in old(spikes))
      ensures forall other :: other != id && other in baselines ==> baselines[other] == old(baselines)[other]
      ensures forall other :: other != id && other in spikes ==> spikes[other] == old(spikes)[other]
    {
      ghost var before, after := Counts(history), Counts(history + [s]);
      assert (history + [s])[..|history|] == history;
      baseline := if id in baselines then baselines[id] else 0;
      if !s.complete {
        assert after == before;
        return baseline, false;
      }
      assert after == before + [|s.rows|] && after[..|before|] == before;
      if id !in baselines {
        baselines := baselines[id := |s.rows|];
        return |s.rows|, false;
      }
      if Spike(baseline, |s.rows|) {
        spikes := spikes[id := (if id in spikes then spikes[id] else 0) + 1];
      } else {
        spikes := spikes[id := 0];
      }
      sustained := spikes[id] >= 2;
    }
  }

  // Two in a row, spelled out.
  lemma SustainedMeansTwo(counts: seq<nat>)
    ensures Streak(counts) >= 2 <==>
      |counts| >= 3 && Spike(counts[0], counts[|counts| - 1]) && Spike(counts[0], counts[|counts| - 2])
  {
    if |counts| >= 2 {
      var rest := counts[..|counts| - 1];
      assert Streak(counts) >= 2 <==> Spike(counts[0], counts[|counts| - 1]) && Streak(rest) >= 1;
      assert Streak(rest) >= 1 <==> |rest| > 1 && Spike(rest[0], rest[|rest| - 1]);
    }
  }
}

/** What each scanner rule detects, in terms of the rows it is given. */
module ScannerRules {
  import opened Common
  import opened StoredTime
  import opened Scanners

  // ---------- text ----------

  predicate Bracketed(command: string) { command != "" && command[0] == '[' && command[|command| - 1] == ']' }

  predicate LocalBinAt(path: string, i: nat) { i + 12 <= |path| && path[i..i + 12] == "/.local/bin/" }

  predicate HasLocalBin(path: string) { exists i :: 0 <= i <= |path| && LocalBinAt(path, i) }

  // The path is the directory or lies below it.
  predicate Under(path: string, dir: string) { path == dir || dir + "/" <= path }

  // A listed prefix may be written with a slash at its end.
  function Bare(prefix: string): string {
    if prefix != "" && prefix[|prefix| - 1] == '/' then prefix[..|prefix| - 1] else prefix
  }

  predicate AllowedBy(path: string, prefixes: seq<string>) {
    exists i :: 0 <= i < |prefixes| && Under(path, Bare(prefixes[i]))
  }

  predicate RootUser(user: string) {
    user == "0" || (|user| == 4 && (user[0] == 'r' || user[0] == 'R') && (user[1] == 'o' || user[1] == 'O')
                    && (user[2] == 'o' || user[2] == 'O') && (user[3] == 't' || user[3] == 'T'))
  }

  lemma BracketedMeans(p: Process)
    ensures KernelLike(p) <==> Bracketed(p.command)
  {
    var c := p.command;
    if c != "" {
      assert "[" <= c <==> c[..1] == "[";
      assert c[|c| - 1..] == "]" <==> c[|c| - 1] == ']';
    }
  }

  lemma LocalBinMeans(path: string)
    ensures Contains(path, "/.local/bin/") <==> HasLocalBin(path)
  {
    assert |"/.local/bin/"| == 12;
    if HasLocalBin(path) {
      var i :| 0 <= i <= |path| && LocalBinAt(path, i);
      assert OccursAt(path, "/.local/bin/", i);
    }
    if Contains(path, "/.local/bin/") {
      var i :| 0 <= i <= |path| && OccursAt(path, "/.local/bin/", i);
      assert LocalBinAt(path, i);
    }
  }

  lemma WithinMeans(path: string, prefix: string)
    ensures PathWithin(path, prefix) <==> Under(path, Bare(prefix))
  {
    if prefix != "" { assert prefix[|prefix| - 1..] == "/" <==> prefix[|prefix| - 1] == '/'; }
  }

  lemma AllowedMeans(path: string, prefixes: seq<string>)
    ensures PathAllowed(path, prefixes) <==> AllowedBy(path, prefixes)
  {
    forall i | 0 <= i < |prefixes|
      ensures PathWithin(path, prefixes[i]) <==> Under(path, Bare(prefixes[i]))
    {
      WithinMeans(path, prefixes[i]);
    }
  }

  lemma RootMeans(user: string)
    ensures IsRoot(user) <==> RootUser(user)
  {
    if |user| == 4 {
      LowerMeans(user[0], 'r');
      LowerMeans(user[1], 'o');
      LowerMeans(user[2], 'o');
      LowerMeans(user[3], 't');
    }
  }

  lemma LowerMeans(c: char, l: char)
    requires 'a' <= l <= 'z'
    ensures Lower(c) == l <==> c == l || (c as int == l as int - 32)
  {}

  // ---------- first matches ----------

  ghost predicate FirstAt<T>(xs: seq<T>, p: T -> bool, i: nat) {
    i < |xs| && p(xs[i]) && forall j :: 0 <= j < i ==> !p(xs[j])
  }

  lemma {:induction false} FirstMeans<T>(xs: seq<T>, p: T -> bool) returns (i: nat)
    ensures First(xs, p).None? ==> forall j :: 0 <= j < |xs| ==> !p(xs[j])
    ensures First(xs, p).Some? ==> FirstAt(xs, p, i) && First(xs, p).value == xs[i]
  {
    i := 0;
    if xs != [] && !p(xs[0]) {
      var k := FirstMeans(xs[1..], p);
      i := k + 1;
      if First(xs, p).None? {
        forall j | 0 <= j < |xs| ensures !p(xs[j]) { if j > 0 { assert xs[1..][j - 1] == xs[j]; } }
      } else {
        assert xs[1..][k] == xs[i];
        forall j | 0 <= j < i ensures !p(xs[j]) { if j > 0 { assert xs[1..][j - 1] == xs[j]; } }
      }
    }
  }

  // ---------- process rules ----------

  predicate RiskyCommand(command: string, policy: Policy) {
    && ("/tmp/" <= command || "/var/tmp/" <= command || "/dev/shm/" <= command || HasLocalBin(command))
    && command !in policy.executables
  }

  lemma RiskyMeans(p: Process, policy: Policy)
    ensures Risky(p, policy) <==> RiskyCommand(p.command, policy)
  {
    LocalBinMeans(p.command);
  }

  ghost predicate FirstRisky(ps: seq<Process>, policy: Policy, i: nat) {
    i < |ps| && RiskyCommand(ps[i].command, policy) && forall j :: 0 <= j < i ==> !RiskyCommand(ps[j].command, policy)
  }

  // Row j is what the scanner takes for the parent of row i: the last row with that PID.
  predicate ParentRow(ps: seq<Process>, i: nat, j: nat) {
    i < |ps| && j < |ps| && ps[j].pid == ps[i].parent && forall k :: j < k < |ps| ==> ps[k].pid != ps[j].pid
  }

  ghost predicate RootUnderUser(ps: seq<Process>) {
    exists i: nat, j: nat :: ParentRow(ps, i, j) && RootUser(ps[i].user) && !RootUser(ps[j].user)
  }

  // The kernel-like rule: some command stands in brackets.
  lemma KernelRule(s: Snapshot<Process>, policy: Policy, sustained: bool)
    ensures var v := ProcessVerdicts(s, policy, sustained)[0];
            v.rule == "process.kernel_like" && v.coverage == s.complete
            && (v.detected <==> exists i :: 0 <= i < |s.rows| && Bracketed(s.rows[i].command))
  {
    var i := FirstMeans(s.rows, (p: Process) => KernelLike(p));
    forall j | 0 <= j < |s.rows| ensures KernelLike(s.rows[j]) <==> Bracketed(s.rows[j].command) { BracketedMeans(s.rows[j]); }
  }

  // The high-risk rule: some command runs from a writable place and is not allowed; its
  // evidence is the first one.
  lemma RiskRule(s: Snapshot<Process>, policy: Policy, sustained: bool)
    ensures var v := ProcessVerdicts(s, policy, sustained)[1];
            v.rule == "process.high_risk_path" && v.coverage == s.complete
            && (v.detected <==> exists i :: 0 <= i < |s.rows| && RiskyCommand(s.rows[i].command, policy))
            && (if v.detected then exists i: nat :: FirstRisky(s.rows, policy, i) && v.path == s.rows[i].command else v.path == "")
  {
    var i := FirstMeans(s.rows, (p: Process) => Risky(p, policy));
    forall j | 0 <= j < |s.rows|
      ensures Risky(s.rows[j], policy) <==> RiskyCommand(s.rows[j].command, policy)
    {
      RiskyMeans(s.rows[j], policy);
    }
    if First(s.rows, (p: Process) => Risky(p, policy)).Some? { assert FirstRisky(s.rows, policy, i); }
  }

  lemma {:induction false} ParentsLast(ps: seq<Process>, pid: nat) returns (j: nat)
    ensures pid in Parents(ps) <==> exists k :: 0 <= k < |ps| && ps[k].pid == pid
    ensures pid in Parents(ps) ==>
              j < |ps| && ps[j].pid == pid && Parents(ps)[pid] == ps[j] && forall k :: j < k < |ps| ==> ps[k].pid != pid
  {
    j := 0;
    if ps != [] {
      var n := |ps| - 1;
      ParentsMeaning(ps, pid);
      if ps[n].pid == pid {
        j := n;
      } else if pid in Parents(ps) {
        j := ParentsLast(ps[..n], pid);
        forall k | j < k < |ps| ensures ps[k].pid != pid { if k < n { assert ps[..n][k].pid != pid; } }
      }
    }
  }

  lemma MismatchMeans(ps: seq<Process>)
    ensures AnyMismatch(ps) <==> RootUnderUser(ps)
  {
    if AnyMismatch(ps) {
      var i :| 0 <= i < |ps| && Mismatched(Parents(ps), ps[i]);
      var j := ParentsLast(ps, ps[i].parent);
      RootMeans(ps[i].user);
      RootMeans(ps[j].user);
      assert ParentRow(ps, i, j);
    }
    if RootUnderUser(ps) {
      var i: nat, j: nat :| ParentRow(ps, i, j) && RootUser(ps[i].user) && !RootUser(ps[j].user);
      var k := ParentsLast(ps, ps[i].parent);
      RootMeans(ps[i].user);
      RootMeans(ps[j].user);
      assert k == j;
      assert Mismatched(Parents(ps), ps[i]);
    }
  }

  // The parent-child rule: a root process whose parent row is not root. The spike rule
  // reports what the counter says.
  lemma MismatchRule(s: Snapshot<Process>, policy: Policy, sustained: bool)
    ensures var vs := ProcessVerdicts(s, policy, sustained);
            && |vs| == 4 && vs[2].rule == "process.parent_child_mismatch" && vs[2].coverage == s.complete
            && (vs[2].detected <==> RootUnderUser(s.rows))
            && vs[3].rule == "process.pid_spike" && vs[3].coverage == s.complete && vs[3].detected == sustained
  {
    MismatchMeans(s.rows);
  }

  // ---------- layer rules ----------

  const PROGRAM_DIRS := ["/tmp", "/var/tmp", "/dev/shm", "/bin", "/sbin", "/usr/bin", "/usr/sbin", "/usr/local/bin"]
  const RUNTIME_DIRS := ["/etc", "/bin", "/sbin", "/usr/bin", "/usr/sbin", "/usr/local/bin", "/opt", "/app"]

  predicate UnderAny(path: string, dirs: seq<string>) { exists i :: 0 <= i < |dirs| && Under(path, dirs[i]) }

  predicate LocalChange(c: Change, policy: Policy) {
    && !AllowedBy(c.path, policy.writable) && (c.kind == Added || c.kind == Modified)
    && (Under(c.path, "/usr/local/bin") || HasLocalBin(c.path))
  }

  predicate ProgramAdded(c: Change, policy: Policy) {
    !AllowedBy(c.path, policy.writable) && c.kind == Added && (HasLocalBin(c.path) || UnderAny(c.path, PROGRAM_DIRS))
  }

  predicate SystemChanged(c: Change, policy: Policy) {
    !AllowedBy(c.path, policy.writable) && (c.kind == Modified || c.kind == Deleted) && UnderAny(c.path, RUNTIME_DIRS)
  }

  lemma DirsMean(path: string, dirs: seq<string>)
    requires forall i :: 0 <= i < |dirs| ==> Bare(dirs[i]) == dirs[i]
    ensures PathAllowed(path, dirs) <==> UnderAny(path, dirs)
  {
    AllowedMeans(path, dirs);
  }

  lemma LocalMeans(c: Change, policy: Policy)
    ensures UserLocal(c, policy) <==> LocalChange(c, policy)
  {
    AllowedMeans(c.path, policy.writable);
    WithinMeans(c.path, "/usr/local/bin");
    LocalBinMeans(c.path);
  }

  lemma ProgramMeans(c: Change, policy: Policy)
    ensures AddedExecutable(c, policy) <==> ProgramAdded(c, policy)
  {
    AllowedMeans(c.path, policy.writable);
    LocalBinMeans(c.path);
    DirsMean(c.path, PROGRAM_DIRS);
  }

  lemma SystemMeans(c: Change, policy: Policy)
    ensures RuntimeChange(c, policy) <==> SystemChanged(c, policy)
  {
    AllowedMeans(c.path, policy.writable);
    DirsMean(c.path, RUNTIME_DIRS);
  }

  ghost predicate FirstProgram(cs: seq<Change>, policy: Policy, i: nat) {
    i < |cs| && ProgramAdded(cs[i], policy) && forall j :: 0 <= j < i ==> !ProgramAdded(cs[j], policy)
  }

  // A file in a user-local program directory was added or modified.
  lemma LocalRule(s: Snapshot<Change>, policy: Policy)
    ensures var v := LayerVerdicts(s, policy)[0];
            v.rule == "diff.user_local_executable" && v.coverage == s.complete
            && (v.detected <==> exists i :: 0 <= i < |s.rows| && LocalChange(s.rows[i], policy))
  {
    var i := FirstMeans(s.rows, (c: Change) => UserLocal(c, policy));
    forall j | 0 <= j < |s.rows| ensures UserLocal(s.rows[j], policy) <==> LocalChange(s.rows[j], policy) { LocalMeans(s.rows[j], policy); }
  }

  // A program was added where programs are run from; the evidence is the first one.
  lemma ProgramRule(s: Snapshot<Change>, policy: Policy)
    ensures var v := LayerVerdicts(s, policy)[1];
            v.rule == "diff.added_executable" && v.coverage == s.complete
            && (v.detected <==> exists i :: 0 <= i < |s.rows| && ProgramAdded(s.rows[i], policy))
            && (if v.detected then exists i: nat :: FirstProgram(s.rows, policy, i) && v.path == s.rows[i].path else v.path == "")
  {
    var i := FirstMeans(s.rows, (c: Change) => AddedExecutable(c, policy));
    forall j | 0 <= j < |s.rows|
      ensures AddedExecutable(s.rows[j], policy) <==> ProgramAdded(s.rows[j], policy)
    {
      ProgramMeans(s.rows[j], policy);
    }
    if First(s.rows, (c: Change) => AddedExecutable(c, policy)).Some? { assert FirstProgram(s.rows, policy, i); }
  }

  // A file of the system or the application was modified or deleted.
  lemma SystemRule(s: Snapshot<Change>, policy: Policy)
    ensures var v := LayerVerdicts(s, policy)[2];
            v.rule == "diff.runtime_modification" && v.coverage == s.complete
            && (v.detected <==> exists i :: 0 <= i < |s.rows| && SystemChanged(s.rows[i], policy))
  {
    var i := FirstMeans(s.rows, (c: Change) => RuntimeChange(c, policy));
    forall j | 0 <= j < |s.rows| ensures RuntimeChange(s.rows[j], policy) <==> SystemChanged(s.rows[j], policy) { SystemMeans(s.rows[j], policy); }
  }

  // ---------- correlation ----------

  // The correlation compares the first risky command with the first added program, and is
  // covered only when both scans are.
  lemma CorrelationRule(ps: Snapshot<Process>, cs: Snapshot<Change>, policy: Policy)
    ensures var v := Correlate(ProcessVerdicts(ps, policy, false), LayerVerdicts(cs, policy));
            && v.rule == "correlation.added_executable_running" && (v.coverage <==> ps.complete && cs.complete)
            && (v.detected <==> exists i: nat, j: nat ::
                  FirstRisky(ps.rows, policy, i) && FirstProgram(cs.rows, policy, j) && ps.rows[i].command == cs.rows[j].path)
            && (v.detected ==> v.path != "")
  {
    ProcessEvidence(ps, policy);
    LayerEvidence(cs, policy);
    RiskRule(ps, policy, false);
    ProgramRule(cs, policy);
    RiskyNamed(ps, policy);
  }

  // A risky command has a name.
  lemma RiskyNamed(ps: Snapshot<Process>, policy: Policy)
    ensures forall i: nat :: FirstRisky(ps.rows, policy, i) ==> ps.rows[i].command != ""
  {
    forall i: nat | FirstRisky(ps.rows, policy, i)
      ensures ps.rows[i].command != ""
    {
      RiskyMeans(ps.rows[i], policy);
      RiskyHasName(ps.rows[i].command);
    }
  }

  // A spike is three times the first count and twenty more than it.
  lemma SpikeMeans(baseline: nat, count: nat)
    ensures Spike(baseline, count) <==> baseline > 0 && count >= 3 * baseline && count >= baseline + 20
  {}

  // ---------- scans ----------

  // A scan that is told to back off evaluates nothing; any other evaluates every rule, with
  // no rows and no coverage when it failed.
  lemma ScanRules(f: Fetch<Process>, layers: Fetch<Change>, processes: Option<Fetch<Process>>, policy: Policy, sustained: bool)
    ensures f.Backoff? ==> ProcessScan(f, policy, sustained) == []
    ensures f.Error? ==> ProcessScan(f, policy, sustained) == ProcessVerdicts(Snapshot([], false), policy, sustained)
    ensures f.Fetched? ==> ProcessScan(f, policy, sustained) == ProcessVerdicts(f.snapshot, policy, sustained)
    ensures layers.Backoff? || (processes.Some? && processes.value.Backoff?) ==> LayerScan(layers, processes, policy) == []
    ensures !layers.Backoff? && !(processes.Some? && processes.value.Backoff?) ==>
              var vs := LayerScan(layers, processes, policy);
              && |vs| == 4 && vs[..3] == LayerVerdicts(if layers.Error? then Snapshot([], false) else layers.snapshot, policy)
              && vs[3].rule == "correlation.added_executable_running"
  {
    if !layers.Backoff? && !(processes.Some? && processes.value.Backoff?) {
      var ds := LayerVerdicts(Usable(layers), policy);
      assert LayerScan(layers, processes, policy)[..3] == ds;
    }
  }

  // What is evaluated for a verdict: its rule in the container and against the baseline,
  // critical for the kernel-like and the correlation rule and high for the others.
  lemma ObservationMeans(v: Verdict, container: string, baseline: string, at: Moment)
    ensures var o := Observe(v, container, baseline, at);
            && o.fingerprint.container == container && o.fingerprint.rule == v.rule && o.fingerprint.baseline == baseline
            && o.detected == v.detected && o.coverage == v.coverage && o.at == at && o.details.confidence == "high"
            && (o.details.severity == "critical" <==> v.rule in {"process.kernel_like", "correlation.added_executable_running"})
            && o.details.severity in {"critical", "high"}
            && (o.details.category == "process" <==>
                  v.rule in {"process.kernel_like", "process.high_risk_path", "process.parent_child_mismatch", "process.pid_spike"})
            && o.details.category in {"process", "drift"}
  {
    assert "critical"[0] != "high"[0] && "process"[0] != "drift"[0];
  }
}

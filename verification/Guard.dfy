/**
 The Docker request guard: a counting semaphore around a circuit breaker, used by many
 callers at once. Each mutex section and each channel operation is one atomic step.
 */
module Guard {
  import opened Common

  type Time = nat

  // Both limits are positive: the constructor replaces other values by defaults.
  datatype Config = Config(permits: nat, limit: nat, cooldown: nat) {
    predicate Valid() { permits > 0 && limit > 0 && cooldown > 0 }
  }

  const MINUTE: nat := 60_000_000_000

  // Go's zero times are None.
  datatype Breaker = Breaker(failures: nat, window: Option<Time>, openUntil: Option<Time>)

  const CLOSED := Breaker(0, None, None)

  function Expired(cfg: Config, window: Option<Time>, now: Time): bool { window.Some? && now >= window.value + cfg.cooldown }

  predicate Blocks(b: Breaker, now: Time) { b.openUntil.Some? && now < b.openUntil.value }

  // The state after isOpen, which also clears what has elapsed.
  function Checked(cfg: Config, b: Breaker, now: Time): Breaker {
    if Blocks(b, now) then b
    else if b.openUntil.Some? || Expired(cfg, b.window, now) then CLOSED
    else b
  }

  predicate Counted(failed: bool, cancelled: bool) { failed && !cancelled }

  // The state after a counted failure.
  function Failed(cfg: Config, b: Breaker, now: Time): Breaker {
    var restart := b.window.None? || Expired(cfg, b.window, now);
    var failures := if restart then 1 else b.failures + 1;
    Breaker(failures, if restart then Some(now) else b.window,
            if failures >= cfg.limit then Some(now + cfg.cooldown) else b.openUntil)
  }

  class RequestGuard {
    const cfg: Config
    var failures: nat
    var window: Option<Time>
    var openUntil: Option<Time>

    ghost function View(): Breaker
      reads this
    {
      Breaker(failures, window, openUntil)
    }

    constructor (permits: int, limit: int, cooldown: int)
      ensures cfg.Valid() && View() == CLOSED
      ensures cfg == Config(if permits > 0 then permits else 2, if limit > 0 then limit else 3, if cooldown > 0 then cooldown else 60_000_000_000)
    {
      var p, l, c := permits, limit, cooldown;
      if p <= 0 { p := 2; }
      if l <= 0 { l := 3; }
      if c <= 0 { c := MINUTE; }
      cfg := Config(p, l, c);
      failures, window, openUntil := 0, None, None;
    }

    method IsOpen(now: Time) returns (open: bool)
      modifies this
      ensures open <==> Blocks(old(View()), now)
      ensures View() == Checked(cfg, old(View()), now)
    {
      if openUntil.None? {
        if window.Some? && now >= window.value + cfg.cooldown {
          failures, window := 0, None;
        }
        return false;
      }
      if now < openUntil.value { return true; }
      openUntil, failures, window := None, 0, None;
      return false;
    }

    method Record(now: Time, failed: bool, cancelled: bool)
      modifies this
      ensures View() == if Counted(failed, cancelled) then Failed(cfg, old(View()), now) else old(View())
    {
      if !failed || cancelled { return; }
      if window.None? || now >= window.value + cfg.cooldown {
        failures, window := 0, Some(now);
      }
      failures := failures + 1;
      if failures >= cfg.limit { openUntil := Some(now + cfg.cooldown); }
    }
  }

  // ---------- interleaved callers ----------

  // Where one acquire call and its done callback stand.
  datatype Phase =
    | Waiting     // passed the first check, blocked on the channel
    | Holding     // has a permit, second check still to come
    | Refused     // has a permit, the second check found the breaker open
    | Running     // admitted
    | Recorded    // outcome recorded, permit still held
    | Finished

  predicate Holds(p: Phase) { p.Holding? || p.Refused? || p.Running? || p.Recorded? }

  datatype World = World(breaker: Breaker, permits: nat, phase: map<nat, Phase>, clock: Time)

  const START := World(CLOSED, 0, map[], 0)

  datatype Step =
    | Enter(caller: nat, now: Time)
    | Take(caller: nat)
    | Cancel(caller: nat)
    | Recheck(caller: nat, now: Time)
    | GiveBack(caller: nat)
    | Finish(caller: nat, now: Time, failed: bool, cancelled: bool)
    | Release(caller: nat)
    | DoneAgain(caller: nat)

  predicate At(w: World, caller: nat, p: Phase) { caller in w.phase && w.phase[caller] == p }

  // What the channel and the program order allow; the clock never runs backwards.
  predicate Enabled(cfg: Config, w: World, step: Step) {
    match step
    case Enter(c, now) => c !in w.phase && now >= w.clock
    case Take(c) => At(w, c, Waiting) && w.permits < cfg.permits
    case Cancel(c) => At(w, c, Waiting)
    case Recheck(c, now) => At(w, c, Holding) && now >= w.clock
    case GiveBack(c) => At(w, c, Refused) && w.permits > 0
    case Finish(c, now, _, _) => At(w, c, Running) && now >= w.clock
    case Release(c) => At(w, c, Recorded) && w.permits > 0
    case DoneAgain(c) => At(w, c, Finished)
  }

  function Next(cfg: Config, w: World, step: Step): World
    requires Enabled(cfg, w, step)
  {
    match step
    case Enter(c, now) =>
      World(Checked(cfg, w.breaker, now), w.permits, w.phase[c := if Blocks(w.breaker, now) then Finished else Waiting], now)
    case Take(c) => w.(permits := w.permits + 1, phase := w.phase[c := Holding])
    case Cancel(c) => w.(phase := w.phase[c := Finished])
    case Recheck(c, now) =>
      World(Checked(cfg, w.breaker, now), w.permits, w.phase[c := if Blocks(w.breaker, now) then Refused else Running], now)
    case GiveBack(c) => w.(permits := w.permits - 1, phase := w.phase[c := Finished])
    case Finish(c, now, failed, cancelled) =>
      World(if Counted(failed, cancelled) then Failed(cfg, w.breaker, now) else w.breaker, w.permits, w.phase[c := Recorded], now)
    case Release(c) => w.(permits := w.permits - 1, phase := w.phase[c := Finished])
    case DoneAgain(_) => w
  }

  ghost predicate Run(cfg: Config, steps: seq<Step>, ws: seq<World>) {
    && cfg.Valid() && |ws| == |steps| + 1 && ws[0] == START
    && forall i :: 0 <= i < |steps| ==> Enabled(cfg, ws[i], steps[i]) && ws[i + 1] == Next(cfg, ws[i], steps[i])
  }

  // ---------- permits ----------

  ghost function Holders(w: World): set<nat> { set c | c in w.phase && Holds(w.phase[c]) }

  ghost predicate PermitsMatch(cfg: Config, w: World) { w.permits == |Holders(w)| <= cfg.permits }

  lemma HoldersMove(w: World, w': World, c: nat, p: Phase)
    requires w'.phase == w.phase[c := p]
    ensures Holders(w') == if Holds(p) then Holders(w) + {c} else Holders(w) - {c}
  {}

  lemma HeldMove(held: set<nat>, c: nat)
    ensures |held + {c}| == if c in held then |held| else |held| + 1
    ensures |held - {c}| == if c in held then |held| - 1 else |held|
  {
    if c in held { assert held + {c} == held; } else { assert held - {c} == held; }
  }

  lemma StepPermits(cfg: Config, w: World, step: Step)
    requires PermitsMatch(cfg, w) && Enabled(cfg, w, step)
    ensures PermitsMatch(cfg, Next(cfg, w, step))
  {
    if !step.DoneAgain? {
      var w', c := Next(cfg, w, step), step.caller;
      HoldersMove(w, w', c, w'.phase[c]);
      HeldMove(Holders(w), c);
      assert c in Holders(w) <==> c in w.phase && Holds(w.phase[c]);
    }
  }

  // At every moment of every interleaving, the permits in the channel are the callers
  // between grant and release, and never more than the limit.
  lemma {:induction false} RunPermits(cfg: Config, steps: seq<Step>, ws: seq<World>, n: nat)
    requires Run(cfg, steps, ws) && n <= |steps|
    ensures PermitsMatch(cfg, ws[n])
  {
    if n > 0 {
      RunPermits(cfg, steps, ws, n - 1);
      StepPermits(cfg, ws[n - 1], steps[n - 1]);
    } else {
      assert Holders(START) == {};
    }
  }

  // A caller that must return a permit never blocks on the channel.
  lemma ReturnNeverBlocks(cfg: Config, steps: seq<Step>, ws: seq<World>, n: nat, c: nat)
    requires Run(cfg, steps, ws) && n <= |steps|
    ensures At(ws[n], c, Refused) ==> Enabled(cfg, ws[n], GiveBack(c))
    ensures At(ws[n], c, Recorded) ==> Enabled(cfg, ws[n], Release(c))
  {
    RunPermits(cfg, steps, ws, n);
    if At(ws[n], c, Refused) || At(ws[n], c, Recorded) { assert c in Holders(ws[n]); }
  }

  // While a call is unfinished, some caller can move on without being cancelled.
  lemma NeverStuck(cfg: Config, steps: seq<Step>, ws: seq<World>, n: nat, c: nat)
    requires Run(cfg, steps, ws) && n <= |steps| && c in ws[n].phase && !ws[n].phase[c].Finished?
    ensures exists step :: Enabled(cfg, ws[n], step) && !step.Enter? && !step.Cancel? && !step.DoneAgain?
  {
    var w := ws[n];
    RunPermits(cfg, steps, ws, n);
    if Holders(w) == {} {
      assert c !in Holders(w);
      assert Enabled(cfg, w, Take(c));
    } else {
      var d :| d in Holders(w);
      HolderMoves(cfg, w, d);
    }
  }

  lemma HolderMoves(cfg: Config, w: World, d: nat)
    requires PermitsMatch(cfg, w) && d in Holders(w)
    ensures exists step :: Enabled(cfg, w, step) && !step.Enter? && !step.Cancel? && !step.DoneAgain?
  {
    match w.phase[d]
    case Holding => assert Enabled(cfg, w, Recheck(d, w.clock));
    case Refused => assert Enabled(cfg, w, GiveBack(d));
    case Running => assert Enabled(cfg, w, Finish(d, w.clock, false, false));
    case Recorded => assert Enabled(cfg, w, Release(d));
  }

  function Grants(steps: seq<Step>, n: nat, c: nat): nat
    requires n <= |steps|
  {
    if n == 0 then 0 else Grants(steps, n - 1, c) + if steps[n - 1] == Take(c) then 1 else 0
  }

  function Returns(steps: seq<Step>, n: nat, c: nat): nat
    requires n <= |steps|
  {
    if n == 0 then 0 else Returns(steps, n - 1, c) + if steps[n - 1] == GiveBack(c) || steps[n - 1] == Release(c) then 1 else 0
  }

  // Each call is granted at most one permit and returns it exactly once, however often its
  // done callback is called.
  lemma {:induction false} ReturnedOnce(cfg: Config, steps: seq<Step>, ws: seq<World>, n: nat, c: nat)
    requires Run(cfg, steps, ws) && n <= |steps|
    ensures Grants(steps, n, c) == Returns(steps, n, c) + if c in Holders(ws[n]) then 1 else 0
    ensures Grants(steps, n, c) <= 1
    ensures c !in ws[n].phase || ws[n].phase[c].Waiting? ==> Grants(steps, n, c) == 0
  {
    if n > 0 {
      ReturnedOnce(cfg, steps, ws, n - 1, c);
    }
  }

  // ---------- the breaker ----------

  ghost predicate AtLeast(w: World, until: Time) {
    w.clock >= until || (w.breaker.openUntil.Some? && w.breaker.openUntil.value >= until)
  }

  // A pause once set is never shortened.
  lemma StepKeepsPause(cfg: Config, w: World, step: Step, until: Time)
    requires Enabled(cfg, w, step) && AtLeast(w, until) && (w.breaker.openUntil.Some? ==> w.breaker.openUntil.value <= w.clock + cfg.cooldown)
    ensures AtLeast(Next(cfg, w, step), until)
  {}

  // ---------- runs of the breaker ----------

  // The times of the counted failures among the first n steps.
  function Failures(steps: seq<Step>, n: nat): seq<Time>
    requires n <= |steps|
  {
    if n == 0 then []
    else if steps[n - 1].Finish? && Counted(steps[n - 1].failed, steps[n - 1].cancelled) then Failures(steps, n - 1) + [steps[n - 1].now]
    else Failures(steps, n - 1)
  }

  // The window holds the latest failures, all within one cooldown of its start.
  ghost predicate Grounded(cfg: Config, w: World, failures: seq<Time>) {
    var b := w.breaker;
    && (b.openUntil.Some? ==> b.openUntil.value <= w.clock + cfg.cooldown)
    && (if b.window.None? then b.failures == 0
        else
          && 0 < b.failures <= |failures| && b.window.value <= w.clock
          && forall i :: |failures| - b.failures <= i < |failures| ==>
                           b.window.value <= failures[i] < b.window.value + cfg.cooldown && failures[i] <= w.clock)
  }

  lemma StepGrounded(cfg: Config, w: World, step: Step, failures: seq<Time>)
    requires cfg.Valid() && Grounded(cfg, w, failures) && Enabled(cfg, w, step)
    ensures var counted := step.Finish? && Counted(step.failed, step.cancelled);
            Grounded(cfg, Next(cfg, w, step), if counted then failures + [step.now] else failures)
  {}

  lemma {:induction false} RunGrounded(cfg: Config, steps: seq<Step>, ws: seq<World>, n: nat)
    requires Run(cfg, steps, ws) && n <= |steps|
    ensures Grounded(cfg, ws[n], Failures(steps, n))
  {
    if n > 0 {
      RunGrounded(cfg, steps, ws, n - 1);
      StepGrounded(cfg, ws[n - 1], steps[n - 1], Failures(steps, n - 1));
    }
  }

  // A pause is set or moved only by a counted failure, and only when the last `limit`
  // counted failures lie within less than one cooldown.
  lemma PauseNeedsFailures(cfg: Config, steps: seq<Step>, ws: seq<World>, n: nat)
    requires Run(cfg, steps, ws) && n < |steps|
    requires ws[n + 1].breaker.openUntil.Some? && ws[n + 1].breaker.openUntil != ws[n].breaker.openUntil
    ensures var until, fs := ws[n + 1].breaker.openUntil.value, Failures(steps, n + 1);
            && |fs| >= cfg.limit && steps[n].Finish? && until == fs[|fs| - 1] + cfg.cooldown
            && forall i :: |fs| - cfg.limit <= i < |fs| ==> until - 2 * cfg.cooldown < fs[i] <= until - cfg.cooldown
  {
    RunGrounded(cfg, steps, ws, n);
    RunGrounded(cfg, steps, ws, n + 1);
  }

  lemma {:induction false} PausePersists(cfg: Config, steps: seq<Step>, ws: seq<World>, i: nat, j: nat, until: Time)
    requires Run(cfg, steps, ws) && i <= j <= |steps| && ws[i].breaker.openUntil == Some(until)
    ensures AtLeast(ws[j], until)
    decreases j
  {
    if i < j {
      PausePersists(cfg, steps, ws, i, j - 1, until);
      RunGrounded(cfg, steps, ws, j - 1);
      StepKeepsPause(cfg, ws[j - 1], steps[j - 1], until);
    }
  }

  // A call that comes during a pause is refused at once: it never waits, takes a permit, or
  // touches the breaker.
  lemma RefusedAtOnce(cfg: Config, w: World, c: nat, now: Time)
    requires Enabled(cfg, w, Enter(c, now)) && w.breaker.openUntil.Some? && now < w.breaker.openUntil.value
    ensures var w' := Next(cfg, w, Enter(c, now));
            w'.phase == w.phase[c := Finished] && w'.permits == w.permits && w'.breaker == w.breaker
  {}

  // No call is admitted before any pause that was ever set before it.
  lemma AdmittedAfterPauses(cfg: Config, steps: seq<Step>, ws: seq<World>, i: nat, j: nat)
    requires Run(cfg, steps, ws) && i <= j < |steps| && ws[i].breaker.openUntil.Some?
    requires steps[j].Recheck? && At(ws[j + 1], steps[j].caller, Running)
    ensures steps[j].now >= ws[i].breaker.openUntil.value
  {
    PausePersists(cfg, steps, ws, i, j, ws[i].breaker.openUntil.value);
  }

  // ---------- one window of failures ----------

  predicate Fails(step: Step) { step.Finish? && Counted(step.failed, step.cancelled) }

  predicate Checks(step: Step) { step.Enter? || step.Recheck? }

  // The counted failure of step i starts a window: there was none, or it had expired.
  ghost predicate StartsWindow(cfg: Config, steps: seq<Step>, ws: seq<World>, i: nat)
    requires i < |steps| < |ws|
  {
    Fails(steps[i]) && (ws[i].breaker.window.None? || Expired(cfg, ws[i].breaker.window, steps[i].now))
  }

  function Since(steps: seq<Step>, i: nat, j: nat): int
    requires i <= |steps| && j <= |steps|
  {
    |Failures(steps, j)| - |Failures(steps, i)|
  }

  // Step k ends the pause that was set before the window, and forgets the window's
  // failures with it, because they had not reached the limit yet.
  ghost predicate ClearsAt(cfg: Config, steps: seq<Step>, ws: seq<World>, i: nat, k: nat)
    requires i < |steps| < |ws| && k < |steps|
  {
    && ws[i].breaker.openUntil.Some? && Checks(steps[k]) && steps[k].now >= ws[i].breaker.openUntil.value
    && Since(steps, i, k) < cfg.limit
  }

  ghost predicate Cleared(cfg: Config, steps: seq<Step>, ws: seq<World>, i: nat, j: nat)
    requires i < |steps| < |ws| && j <= |steps|
  {
    exists k :: i < k < j && ClearsAt(cfg, steps, ws, i, k)
  }

  // The window of step i as long as nothing cleared it.
  ghost predicate Intact(cfg: Config, steps: seq<Step>, ws: seq<World>, i: nat, j: nat)
    requires i < |steps| < |ws| && j <= |steps| && steps[i].Finish?
  {
    var b, n := ws[j].breaker, Since(steps, i, j);
    && n > 0 && b.window == Some(steps[i].now) && b.failures == n
    && (if n >= cfg.limit then b.openUntil.Some? && b.openUntil.value >= steps[i].now + cfg.cooldown
        else b.openUntil == ws[i].breaker.openUntil)
  }

  lemma {:induction false} ClockMonotone(cfg: Config, steps: seq<Step>, ws: seq<World>, i: nat, j: nat)
    requires Run(cfg, steps, ws) && i < j <= |steps|
    ensures ws[i].clock <= ws[j].clock && (!steps[i].Take? && !steps[i].Cancel? && !steps[i].GiveBack? && !steps[i].Release? && !steps[i].DoneAgain? ==> steps[i].now <= ws[j].clock)
    decreases j
  {
    if i + 1 < j { ClockMonotone(cfg, steps, ws, i, j - 1); }
  }

  lemma WindowStart(cfg: Config, steps: seq<Step>, ws: seq<World>, i: nat)
    requires Run(cfg, steps, ws) && i < |steps| && StartsWindow(cfg, steps, ws, i)
    ensures Intact(cfg, steps, ws, i, i + 1)
  {}

  lemma WindowFailure(cfg: Config, steps: seq<Step>, ws: seq<World>, i: nat, k: nat)
    requires Run(cfg, steps, ws) && i < k < |steps| && steps[i].Finish? && Intact(cfg, steps, ws, i, k)
    requires Fails(steps[k]) && steps[i].now <= steps[k].now < steps[i].now + cfg.cooldown
    ensures Intact(cfg, steps, ws, i, k + 1)
  {}

  lemma WindowCheck(cfg: Config, steps: seq<Step>, ws: seq<World>, i: nat, k: nat)
    requires Run(cfg, steps, ws) && i < k < |steps| && steps[i].Finish? && Intact(cfg, steps, ws, i, k)
    requires Checks(steps[k]) && steps[k].now < steps[i].now + cfg.cooldown
    ensures !ClearsAt(cfg, steps, ws, i, k) ==> Intact(cfg, steps, ws, i, k + 1)
    ensures ClearsAt(cfg, steps, ws, i, k) ==> ws[k + 1].breaker == CLOSED
  {}

  lemma WindowOther(cfg: Config, steps: seq<Step>, ws: seq<World>, i: nat, k: nat)
    requires Run(cfg, steps, ws) && i < k < |steps| && steps[i].Finish? && Intact(cfg, steps, ws, i, k) && !Checks(steps[k]) && !Fails(steps[k])
    ensures Intact(cfg, steps, ws, i, k + 1)
  {}

  // While nothing has cleared it, the window counts every failure since its start.
  lemma {:induction false} WindowIntact(cfg: Config, steps: seq<Step>, ws: seq<World>, i: nat, j: nat)
    requires Run(cfg, steps, ws) && i < j <= |steps| && StartsWindow(cfg, steps, ws, i)
    requires ws[j].clock < steps[i].now + cfg.cooldown && !Cleared(cfg, steps, ws, i, j)
    ensures Intact(cfg, steps, ws, i, j)
    decreases j
  {
    if i + 1 == j {
      WindowStart(cfg, steps, ws, i);
    } else {
      var k := j - 1;
      ClockMonotone(cfg, steps, ws, i, k);
      ClockMonotone(cfg, steps, ws, k, j);
      WindowIntact(cfg, steps, ws, i, k);
      if Checks(steps[k]) { WindowCheck(cfg, steps, ws, i, k); }
      else if Fails(steps[k]) { WindowFailure(cfg, steps, ws, i, k); }
      else { WindowOther(cfg, steps, ws, i, k); }
    }
  }

  // The breaker never counts more than the failures since it was last closed.
  lemma {:induction false} CountBound(cfg: Config, steps: seq<Step>, ws: seq<World>, k: nat, j: nat)
    requires Run(cfg, steps, ws) && k <= j <= |steps| && ws[k].breaker == CLOSED
    ensures ws[j].breaker.failures <= Since(steps, k, j)
    decreases j
  {
    if k < j {
      CountBound(cfg, steps, ws, k, j - 1);
      CountStep(cfg, steps, ws, j - 1);
    }
  }

  lemma CountStep(cfg: Config, steps: seq<Step>, ws: seq<World>, k: nat)
    requires Run(cfg, steps, ws) && k < |steps|
    ensures ws[k + 1].breaker.failures <= ws[k].breaker.failures + Since(steps, k, k + 1)
    ensures Since(steps, k, k + 1) == if Fails(steps[k]) then 1 else 0
  {}

  lemma {:induction false} SinceGrows(steps: seq<Step>, i: nat, j: nat)
    requires i <= j <= |steps|
    ensures Since(steps, i, j) >= 0
    decreases j
  {
    if i < j { SinceGrows(steps, i, j - 1); }
  }

  // The first step that clears the window, after which it is short for good.
  lemma {:induction false} ClearedIsShort(cfg: Config, steps: seq<Step>, ws: seq<World>, i: nat, j: nat)
    requires Run(cfg, steps, ws) && i < j <= |steps| && StartsWindow(cfg, steps, ws, i)
    requires ws[j].clock < steps[i].now + cfg.cooldown && Cleared(cfg, steps, ws, i, j)
    ensures ws[j].breaker.failures < Since(steps, i, j)
    decreases j
  {
    var k := j - 1;
    ClockMonotone(cfg, steps, ws, k, j);
    if i < k && Cleared(cfg, steps, ws, i, k) {
      ClearedIsShort(cfg, steps, ws, i, k);
      CountStep(cfg, steps, ws, k);
    } else {
      assert i < k && ClearsAt(cfg, steps, ws, i, k);
      ClockMonotone(cfg, steps, ws, i, k);
      WindowIntact(cfg, steps, ws, i, k);
      WindowCheck(cfg, steps, ws, i, k);
    }
  }

  // Until one cooldown after the failure that starts a window, under every interleaving:
  // the breaker counts every failure since then if and only if no check fell at or after
  // the end of a pause set before the window while the count was below the limit; and as
  // long as it counts them all it blocks from the limit on.
  lemma WindowCountsExactly(cfg: Config, steps: seq<Step>, ws: seq<World>, i: nat, j: nat)
    requires Run(cfg, steps, ws) && i < j <= |steps| && StartsWindow(cfg, steps, ws, i)
    requires ws[j].clock < steps[i].now + cfg.cooldown
    ensures ws[j].breaker.failures == Since(steps, i, j) <==> !Cleared(cfg, steps, ws, i, j)
    ensures !Cleared(cfg, steps, ws, i, j) ==>
              var b := ws[j].breaker;
              && (b.failures >= cfg.limit ==> Blocks(b, ws[j].clock))
              && (b.failures < cfg.limit ==> b.openUntil == ws[i].breaker.openUntil)
  {
    if Cleared(cfg, steps, ws, i, j) {
      ClearedIsShort(cfg, steps, ws, i, j);
    } else {
      WindowIntact(cfg, steps, ws, i, j);
    }
  }

  // In particular a window that starts with no pause set is never cleared.
  lemma UnpausedWindowOpensAtLimit(cfg: Config, steps: seq<Step>, ws: seq<World>, i: nat, j: nat)
    requires Run(cfg, steps, ws) && i < j <= |steps| && StartsWindow(cfg, steps, ws, i) && ws[i].breaker.openUntil.None?
    requires ws[j].clock < steps[i].now + cfg.cooldown
    ensures ws[j].breaker.failures == Since(steps, i, j)
    ensures Blocks(ws[j].breaker, ws[j].clock) <==> Since(steps, i, j) >= cfg.limit
  {
    WindowCountsExactly(cfg, steps, ws, i, j);
  }

  // ---------- a burst that a leftover pause hides ----------

  // A run with its worlds and its counted failures.
  datatype Trace = Trace(steps: seq<Step>, ws: seq<World>)

  function Last(t: Trace): World
    requires t.ws != []
  {
    t.ws[|t.ws| - 1]
  }

  ghost predicate Good(cfg: Config, t: Trace, failures: seq<Time>) {
    Run(cfg, t.steps, t.ws) && Failures(t.steps, |t.steps|) == failures
  }

  function Pushed(cfg: Config, t: Trace, step: Step): Trace
    requires t.ws != [] && Enabled(cfg, Last(t), step)
  {
    Trace(t.steps + [step], t.ws + [Next(cfg, Last(t), step)])
  }

  lemma {:induction false} FailuresPrefix(steps: seq<Step>, step: Step, n: nat)
    requires n <= |steps|
    ensures Failures(steps + [step], n) == Failures(steps, n)
  {
    if n > 0 { FailuresPrefix(steps, step, n - 1); }
  }

  lemma Push(cfg: Config, t: Trace, step: Step, failures: seq<Time>)
    requires Good(cfg, t, failures) && Enabled(cfg, Last(t), step)
    ensures Good(cfg, Pushed(cfg, t, step), if Fails(step) then failures + [step.now] else failures)
  {
    FailuresPrefix(t.steps, step, |t.steps|);
  }

  // A caller that comes at `at`, is admitted at once, and holds its permit.
  lemma Admit(cfg: Config, t: Trace, failures: seq<Time>, c: nat, at: Time) returns (t': Trace)
    requires Good(cfg, t, failures) && c !in Last(t).phase && at >= Last(t).clock && Last(t).permits < cfg.permits
    requires !Blocks(Last(t).breaker, at) && cfg.cooldown > 0
    ensures Good(cfg, t', failures)
    ensures Last(t') == World(Checked(cfg, Last(t).breaker, at), Last(t).permits + 1, Last(t).phase[c := Running], at)
  {
    var w := Last(t);
    Push(cfg, t, Enter(c, at), failures);
    var t1 := Pushed(cfg, t, Enter(c, at));
    Push(cfg, t1, Take(c), failures);
    var t2 := Pushed(cfg, t1, Take(c));
    Push(cfg, t2, Recheck(c, at), failures);
    t' := Pushed(cfg, t2, Recheck(c, at));
    assert Last(t').phase == w.phase[c := Running];
  }

  // A running caller that fails and returns its permit.
  lemma FailAndReturn(cfg: Config, t: Trace, failures: seq<Time>, c: nat, at: Time) returns (t': Trace)
    requires Good(cfg, t, failures) && At(Last(t), c, Running) && at >= Last(t).clock && Last(t).permits > 0
    ensures Good(cfg, t', failures + [at])
    ensures Last(t') == World(Failed(cfg, Last(t).breaker, at), Last(t).permits - 1, Last(t).phase[c := Finished], at)
  {
    var w := Last(t);
    Push(cfg, t, Finish(c, at, true, false), failures);
    var t1 := Pushed(cfg, t, Finish(c, at, true, false));
    Push(cfg, t1, Release(c), failures + [at]);
    t' := Pushed(cfg, t1, Release(c));
    assert Last(t').phase == w.phase[c := Finished];
  }

  lemma LateBurst(cfg: Config, t: Trace) returns (t': Trace)
    requires cfg == Config(2, 3, 60) && Good(cfg, t, [0, 1, 2, 61]) && Last(t).clock == 61 && Last(t).permits == 0
    requires Last(t).breaker == Breaker(1, Some(61), Some(62)) && 4 !in Last(t).phase && 5 !in Last(t).phase
    ensures Good(cfg, t', [0, 1, 2, 61, 64, 65])
    ensures Last(t').clock == 65 && Last(t').breaker == Breaker(2, Some(64), None)
  {
    t' := Admit(cfg, t, [0, 1, 2, 61], 4, 63);
    assert Last(t').breaker == CLOSED;
    t' := FailAndReturn(cfg, t', [0, 1, 2, 61], 4, 64);
    t' := Admit(cfg, t', [0, 1, 2, 61, 64], 5, 65);
    t' := FailAndReturn(cfg, t', [0, 1, 2, 61, 64], 5, 65);
  }

  lemma FirstBurst() returns (t: Trace)
    ensures Good(Config(2, 3, 60), t, [0, 1, 2, 61]) && Last(t).clock == 61 && Last(t).permits == 0
    ensures Last(t).breaker == Breaker(1, Some(61), Some(62)) && 4 !in Last(t).phase && 5 !in Last(t).phase
  {
    var cfg := Config(2, 3, 60);
    t := Trace([], [START]);
    t := Admit(cfg, t, [], 0, 0);
    t := AdmitAndFail(cfg, t, [], 1, 0);
    t := AdmitAndFail(cfg, t, [] + [0], 2, 1);
    t := AdmitAndFail(cfg, t, [0] + [1], 3, 2);
    assert Last(t).breaker == Breaker(3, Some(0), Some(62));
    t := FailAndReturn(cfg, t, [0] + [1] + [2], 0, 61);
  }

  lemma AdmitAndFail(cfg: Config, t: Trace, failures: seq<Time>, c: nat, at: Time) returns (t': Trace)
    requires Good(cfg, t, failures) && c !in Last(t).phase && at >= Last(t).clock && Last(t).permits < cfg.permits
    requires !Blocks(Last(t).breaker, at) && cfg.cooldown > 0
    ensures Good(cfg, t', failures + [at])
    ensures Last(t') == World(Failed(cfg, Checked(cfg, Last(t).breaker, at), at), Last(t).permits, Last(t).phase[c := Finished], at)
  {
    var t1 := Admit(cfg, t, failures, c, at);
    t' := FailAndReturn(cfg, t1, failures, c, at);
    assert Last(t').phase == Last(t).phase[c := Finished];
  }

  // Three failures at 0, 1 and 2 pause the calls until 62. A call admitted earlier fails
  // at 61 and starts a new window, which the check at 63 forgets: with failures at 64 and
  // 65 three calls have failed within four seconds, and the breaker is not open.
  lemma LeftoverPauseHidesBurst() returns (t: Trace)
    ensures Good(Config(2, 3, 60), t, [0, 1, 2, 61, 64, 65])
    ensures Last(t).clock == 65 && Last(t).breaker == Breaker(2, Some(64), None)
  {
    t := FirstBurst();
    t := LateBurst(Config(2, 3, 60), t);
  }
}

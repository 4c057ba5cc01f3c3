/**
 Container inventory reconciliation: the `container_instances` table, the SQL
 statements `Reconcile` runs over it in order, and the other writers of the table
 (approval, ignore, live samples, retention).
 */
module Inventory {
  import opened Common
  import opened StoredTime

  datatype Class = Managed | ApprovedObserved | Unknown | Ignored | MissingExpected

  predicate Expected(c: Class) { c.Managed? || c.ApprovedObserved? }

  datatype Metrics = Metrics(cpu: Option<real>, memBytes: Option<nat>, memLimit: Option<nat>, restarts: Option<int>)

  const NO_METRICS := Metrics(None, None, None, None)

  // One container of a batch. `details` stands for the columns that are copied
  // verbatim (image, status, fingerprints, inspection); no class means unspecified.
  datatype Instance = Instance(
    id: string, name: string, state: string, project: string, service: string, serviceId: string,
    details: string, kind: Option<Class>, metrics: Metrics)

  datatype Batch = Batch(
    observedAt: Moment, grace: int, instances: seq<Instance>, complete: bool, errorCategory: string)

  datatype Row = Row(
    name: string, state: string, project: string, service: string, serviceId: string,
    details: string, kind: Class, metrics: Metrics,
    current: bool, present: bool, firstSeen: Moment, lastSeen: Moment, absentAt: Option<Moment>, updatedAt: Moment)

  type Table = map<string, Row>

  // ---------- validation ----------

  predicate DistinctIds(xs: seq<Instance>) {
    forall i, j :: 0 <= i < j < |xs| ==> xs[i].id != xs[j].id
  }

  predicate ValidBatch(b: Batch) {
    && (forall i :: 0 <= i < |b.instances| ==>
          && !Blank(b.instances[i].id) && !Blank(b.instances[i].name)
          && |b.instances[i].id| <= 128 && |b.instances[i].name| <= 256)
    && DistinctIds(b.instances)
  }

  function Cutoff(b: Batch): Moment
    requires b.grace <= b.observedAt
  {
    b.observedAt - b.grace
  }

  // `absent_at <= ?` on stored texts. A cutoff before year 0 is written with a leading
  // minus, which sorts before every stored time.
  predicate PastGrace(since: Moment, b: Batch) { b.grace <= b.observedAt && TextAtMost(since, Cutoff(b)) }

  // ---------- the statements, row by row ----------

  function MarkAbsent(r: Row, at: Moment): Row {
    if r.current && (Expected(r.kind) || r.kind.MissingExpected?) then
      r.(current := true, present := false, absentAt := if r.absentAt.Some? then r.absentAt else Some(at), updatedAt := at)
    else r
  }

  function Promote(r: Row, b: Batch): Row {
    if r.current && !r.present && Expected(r.kind) && r.absentAt.Some? && PastGrace(r.absentAt.value, b) then
      r.(kind := MissingExpected, updatedAt := b.observedAt)
    else r
  }

  function RetireObserved(r: Row, at: Moment): Row {
    if r.current && (r.kind.Unknown? || r.kind.Ignored?) then Retire(r, at) else r
  }

  function Retire(r: Row, at: Moment): Row {
    r.(current := false, present := false, absentAt := Some(at), updatedAt := at)
  }

  function Coalesce<T>(a: Option<T>, b: Option<T>): Option<T> { if a.Some? then a else b }

  // Live metrics survive an upsert of a running container and vanish otherwise.
  function KeepMetrics(x: Instance, prior: Metrics): Metrics {
    if x.state == "running" then
      Metrics(Coalesce(x.metrics.cpu, prior.cpu), Coalesce(x.metrics.memBytes, prior.memBytes),
              Coalesce(x.metrics.memLimit, prior.memLimit), Coalesce(x.metrics.restarts, prior.restarts))
    else NO_METRICS
  }

  // INSERT ... ON CONFLICT(container_id) DO UPDATE
  function UpsertRow(prior: Option<Row>, x: Instance, at: Moment): Row {
    Row(x.name, x.state, x.project, x.service, x.serviceId, x.details,
        ClassOf(x),
        if prior.Some? then KeepMetrics(x, prior.value.metrics) else x.metrics,
        true, true, if prior.Some? then prior.value.firstSeen else at, at, None, at)
  }

  function Lookup(t: Table, id: string): Option<Row> { if id in t then Some(t[id]) else None }

  // ---------- the statements, over the table ----------

  function Opening(r: Row, b: Batch): Row
  {
    if b.complete then
      RetireObserved(Promote(MarkAbsent(r, b.observedAt), b), b.observedAt)
    else r
  }

  function OpenTable(t: Table, b: Batch): Table
  {
    map id | id in t :: Opening(t[id], b)
  }

  function RetireName(t: Table, x: Instance, at: Moment): Table {
    map id | id in t :: if t[id].name == x.name && id != x.id && t[id].current then Retire(t[id], at) else t[id]
  }

  function Sight(t: Table, x: Instance, at: Moment): Table {
    var u := RetireName(t, x, at);
    u[x.id := UpsertRow(Lookup(u, x.id), x, at)]
  }

  function SightAll(t: Table, xs: seq<Instance>, at: Moment): Table {
    if xs == [] then t else Sight(SightAll(t, xs[..|xs| - 1], at), xs[|xs| - 1], at)
  }

  predicate Replaces(s: Row, r: Row) {
    && s.current && s.present
    && ((r.serviceId != "" && s.serviceId == r.serviceId)
        || (r.project != "" && r.service != "" && s.project == r.project && s.service == r.service))
  }

  predicate Replaced(t: Table, id: string)
    requires id in t
  {
    && t[id].current && !t[id].present && t[id].kind.MissingExpected?
    && exists other :: other in t && other != id && Replaces(t[other], t[id])
  }

  function RetireReplaced(t: Table, at: Moment): Table {
    map id | id in t :: if Replaced(t, id) then t[id].(current := false, updatedAt := at) else t[id]
  }

  // The committed effect of one valid batch.
  function Reconciled(t: Table, b: Batch): Table
  {
    var seen := SightAll(OpenTable(t, b), b.instances, b.observedAt);
    if b.complete then RetireReplaced(seen, b.observedAt) else seen
  }

  // ---------- what each statement does to one name ----------

  predicate InBatch(xs: seq<Instance>, id: string) { exists i :: 0 <= i < |xs| && xs[i].id == id }

  predicate Named(xs: seq<Instance>, name: string) { exists i :: 0 <= i < |xs| && xs[i].name == name }

  predicate NameReused(xs: seq<Instance>, i: nat)
    requires i < |xs|
  {
    exists j :: i < j < |xs| && xs[j].name == xs[i].name
  }

  // The row a sighting pass leaves for a container of the batch.
  function SightedRow(t: Table, xs: seq<Instance>, i: nat, at: Moment): Row
    requires i < |xs|
  {
    var u := UpsertRow(Lookup(t, xs[i].id), xs[i], at);
    if NameReused(xs, i) then Retire(u, at) else u
  }

  // ... and for a container that is not in the batch.
  function UnsightedRow(r: Row, xs: seq<Instance>, at: Moment): Row {
    if r.current && Named(xs, r.name) then Retire(r, at) else r
  }

  ghost predicate SightShape(t: Table, xs: seq<Instance>, at: Moment) {
    var s := SightAll(t, xs, at);
    && (forall i :: 0 <= i < |xs| ==> xs[i].id in s && s[xs[i].id] == SightedRow(t, xs, i, at))
    && (forall id :: id in s <==> id in t || InBatch(xs, id))
    && (forall id :: id in t && !InBatch(xs, id) ==> s[id] == UnsightedRow(t[id], xs, at))
  }

  lemma SightPoint(t: Table, x: Instance, at: Moment, id: string)
    ensures id in Sight(t, x, at) <==> id in t || id == x.id
    ensures Sight(t, x, at)[x.id] == UpsertRow(Lookup(t, x.id), x, at)
    ensures id in t && id != x.id ==>
      Sight(t, x, at)[id] == if t[id].name == x.name && t[id].current then Retire(t[id], at) else t[id]
  {
    assert Lookup(RetireName(t, x, at), x.id) == Lookup(t, x.id);
  }

  lemma UpsertReadsLittle(p: Row, q: Row, x: Instance, at: Moment)
    requires p.metrics == q.metrics && p.firstSeen == q.firstSeen
    ensures UpsertRow(Some(p), x, at) == UpsertRow(Some(q), x, at)
  {}

  // The loop, in closed form: only the last holder of a name stays current.
  lemma {:induction false} SightAllShape(t: Table, xs: seq<Instance>, at: Moment)
    requires DistinctIds(xs)
    ensures SightShape(t, xs, at)
  {
    if xs != [] {
      SightAllShape(t, xs[..|xs| - 1], at);
      forall id { SightAllAt(t, xs, at, id); }
      forall i | 0 <= i < |xs|
        ensures xs[i].id in SightAll(t, xs, at) && SightAll(t, xs, at)[xs[i].id] == SightedRow(t, xs, i, at)
      {
        SightAllIn(t, xs, at, i);
      }
    }
  }

  lemma SightAllAt(t: Table, xs: seq<Instance>, at: Moment, id: string)
    requires xs != [] && SightShape(t, xs[..|xs| - 1], at)
    ensures id in SightAll(t, xs, at) <==> id in t || InBatch(xs, id)
    ensures id in t && !InBatch(xs, id) ==> SightAll(t, xs, at)[id] == UnsightedRow(t[id], xs, at)
  {
    var ys, x := xs[..|xs| - 1], xs[|xs| - 1];
    SightPoint(SightAll(t, ys, at), x, at, id);
    BatchSplit(xs, id);
    if id in t { NameSplit(xs, t[id].name); }
  }

  lemma SightAllIn(t: Table, xs: seq<Instance>, at: Moment, i: nat)
    requires DistinctIds(xs) && i < |xs| && SightShape(t, xs[..|xs| - 1], at)
    ensures xs[i].id in SightAll(t, xs, at) && SightAll(t, xs, at)[xs[i].id] == SightedRow(t, xs, i, at)
  {
    var n := |xs| - 1;
    var ys, x := xs[..n], xs[n];
    var s := SightAll(t, ys, at);
    SightPoint(s, x, at, xs[i].id);
    if i < n {
      assert ys[i].id in s && s[ys[i].id] == SightedRow(t, ys, i, at);
      SightedStep(t, xs, i, at);
    } else {
      assert !InBatch(ys, x.id);
      if x.id in t { UpsertReadsLittle(s[x.id], t[x.id], x, at); }
      assert !NameReused(xs, n);
    }
  }

  lemma BatchSplit(xs: seq<Instance>, id: string)
    requires xs != []
    ensures InBatch(xs, id) <==> InBatch(xs[..|xs| - 1], id) || id == xs[|xs| - 1].id
  {
    var ys := xs[..|xs| - 1];
    if InBatch(xs, id) && id != xs[|xs| - 1].id {
      var i :| 0 <= i < |xs| && xs[i].id == id;
      assert ys[i].id == id;
    }
  }

  lemma NameSplit(xs: seq<Instance>, name: string)
    requires xs != []
    ensures Named(xs, name) <==> Named(xs[..|xs| - 1], name) || name == xs[|xs| - 1].name
  {
    var ys := xs[..|xs| - 1];
    if Named(xs, name) && name != xs[|xs| - 1].name {
      var i :| 0 <= i < |xs| && xs[i].name == name;
      assert ys[i].name == name;
    }
  }

  lemma SightedStep(t: Table, xs: seq<Instance>, i: nat, at: Moment)
    requires i < |xs| - 1
    ensures var r, x := SightedRow(t, xs[..|xs| - 1], i, at), xs[|xs| - 1];
            SightedRow(t, xs, i, at) == if r.name == x.name && r.current then Retire(r, at) else r
  {
    var n := |xs| - 1;
    var ys := xs[..n];
    if NameReused(xs, i) {
      var j :| i < j < |xs| && xs[j].name == xs[i].name;
      if j < n { assert ys[j].name == ys[i].name; }
    }
    if NameReused(ys, i) {
      var j :| i < j < |ys| && ys[j].name == ys[i].name;
      assert xs[j].name == xs[i].name;
    }
  }

  // ---------- soundness of every reachable table ----------

  ghost predicate Sound(t: Table) {
    && (forall id :: id in t ==> RowSound(t[id]))
    && (forall a, b :: a in t && b in t && t[a].current && t[b].current && t[a].name == t[b].name ==> a == b)
  }

  predicate RowSound(r: Row) {
    (r.present ==> r.current) && (r.present <==> r.absentAt.None?)
  }

  lemma OpeningSound(t: Table, b: Batch)
    requires Sound(t)
    ensures Sound(OpenTable(t, b))
    ensures b.complete ==> forall id :: id in t ==> !OpenTable(t, b)[id].present
  {
    forall id | id in t { OpeningRow(t[id], b); }
  }

  lemma OpeningRow(r: Row, b: Batch)
    requires RowSound(r)
    ensures RowSound(Opening(r, b)) && Opening(r, b).name == r.name
    ensures Opening(r, b).current ==> r.current
    ensures b.complete ==> !Opening(r, b).present
  {}

  lemma SightSound(t: Table, x: Instance, at: Moment)
    requires Sound(t)
    ensures Sound(Sight(t, x, at))
  {}

  lemma {:induction false} SightAllSound(t: Table, xs: seq<Instance>, at: Moment)
    requires Sound(t)
    ensures Sound(SightAll(t, xs, at))
  {
    if xs != [] {
      SightAllSound(t, xs[..|xs| - 1], at);
      SightSound(SightAll(t, xs[..|xs| - 1], at), xs[|xs| - 1], at);
    }
  }

  lemma ReconciledSound(t: Table, b: Batch)
    requires Sound(t)
    ensures Sound(Reconciled(t, b))
  {
    OpeningSound(t, b);
    SightAllSound(OpenTable(t, b), b.instances, b.observedAt);
  }

  // A batch that is not complete touches only its own containers and the rows that
  // held one of its names; an empty one touches nothing.
  lemma IncompleteFrame(t: Table, b: Batch)
    requires ValidBatch(b) && !b.complete
    ensures forall id :: id in t && !InBatch(b.instances, id) ==>
              id in Reconciled(t, b) && Reconciled(t, b)[id] == UnsightedRow(t[id], b.instances, b.observedAt)
    ensures forall id :: id in Reconciled(t, b) ==> id in t || InBatch(b.instances, id)
    ensures b.instances == [] ==> Reconciled(t, b) == t
  {
    assert OpenTable(t, b) == t;
    SightAllShape(t, b.instances, b.observedAt);
  }

  // ---------- replaying a batch ----------

  // A container the table does not know yet, not running, that brings metrics: the
  // INSERT stores them, and the next upsert of the same container erases them.
  predicate IdleMetrics(t: Table, x: Instance) {
    x.id !in t && x.state != "running" && x.metrics != NO_METRICS
  }

  lemma ReplayedMetrics(t: Table, x: Instance, at: Moment)
    ensures var m := UpsertRow(Lookup(t, x.id), x, at).metrics;
            KeepMetrics(x, m) == m <==> !IdleMetrics(t, x)
  {}

  lemma OpeningKeeps(r: Row, b: Batch)
    ensures Opening(r, b).metrics == r.metrics && Opening(r, b).firstSeen == r.firstSeen
    ensures !r.current ==> Opening(r, b) == r
  {}

  // One opening pass is enough: rows it leaves current are not changed by a second.
  lemma OpeningSettled(r: Row, b: Batch)
    requires RowSound(r)
    ensures Opening(Opening(r, b), b) == Opening(r, b)
  {}

  lemma RetireReplacedPoint(t: Table, at: Moment, id: string)
    requires id in t
    ensures RetireReplaced(t, at)[id] == if Replaced(t, id) then t[id].(current := false, updatedAt := at) else t[id]
    ensures t[id].present || !t[id].current ==> RetireReplaced(t, at)[id] == t[id]
  {}

  lemma RetireReplacedSettled(t: Table, at: Moment)
    ensures RetireReplaced(RetireReplaced(t, at), at) == RetireReplaced(t, at)
  {
    var u := RetireReplaced(t, at);
    forall id | id in u
      ensures !Replaced(u, id)
    {
      RetireReplacedPoint(t, at, id);
      if Replaced(u, id) {
        var other :| other in u && other != id && Replaces(u[other], u[id]);
        RetireReplacedPoint(t, at, other);
        assert false;
      }
    }
  }

  lemma FinalPoint(t: Table, b: Batch, id: string)
    requires ValidBatch(b) && Sound(t)
    ensures id in Reconciled(t, b) <==> id in t || InBatch(b.instances, id)
    ensures forall i :: 0 <= i < |b.instances| && b.instances[i].id == id ==>
      Reconciled(t, b)[id] == SightedRow(OpenTable(t, b), b.instances, i, b.observedAt)
    ensures id in t && !InBatch(b.instances, id) ==>
      var r := UnsightedRow(Opening(t[id], b), b.instances, b.observedAt);
      Reconciled(t, b)[id] == r || (b.complete && r.current && Reconciled(t, b)[id] == r.(current := false, updatedAt := b.observedAt))
  {
    var o := OpenTable(t, b);
    SightAllShape(o, b.instances, b.observedAt);
    var s := SightAll(o, b.instances, b.observedAt);
    if id in s { RetireReplacedPoint(s, b.observedAt, id); }
    forall i | 0 <= i < |b.instances| && b.instances[i].id == id
      ensures Reconciled(t, b)[id] == SightedRow(o, b.instances, i, b.observedAt)
    {
      assert s[b.instances[i].id] == SightedRow(o, b.instances, i, b.observedAt);
    }
  }

  // After a complete batch the present rows are exactly the batch's containers,
  // except those whose name a later container of the same batch took over.
  lemma PresentAfterComplete(t: Table, b: Batch, id: string)
    requires Sound(t) && ValidBatch(b) && b.complete
    ensures (id in Reconciled(t, b) && Reconciled(t, b)[id].present)
       <==> exists i :: 0 <= i < |b.instances| && b.instances[i].id == id && !NameReused(b.instances, i)
  {
    FinalPoint(t, b, id);
    if InBatch(b.instances, id) {
      var i :| 0 <= i < |b.instances| && b.instances[i].id == id;
      assert forall j :: 0 <= j < |b.instances| && b.instances[j].id == id ==> j == i;
    } else if id in t {
      OpeningRow(t[id], b);
    }
  }

  // The second sighting pass rebuilds a batch row exactly when no metrics vanish.
  lemma ReplaySighted(t: Table, b: Batch, i: nat)
    requires ValidBatch(b) && Sound(t) && i < |b.instances|
    ensures var x, done := b.instances[i], Reconciled(t, b);
            x.id in done &&
            (SightedRow(OpenTable(done, b), b.instances, i, b.observedAt) == done[x.id] <==> !IdleMetrics(t, x))
  {
    var x, o, done := b.instances[i], OpenTable(t, b), Reconciled(t, b);
    assert InBatch(b.instances, x.id);
    FinalPoint(t, b, x.id);
    assert done[x.id] == SightedRow(o, b.instances, i, b.observedAt);
    if x.id in t { OpeningKeeps(t[x.id], b); }
    OpeningKeeps(done[x.id], b);
    ReplayedMetrics(t, x, b.observedAt);
    UpsertSame(t, o, x, b.observedAt);
  }

  lemma UpsertSame(t: Table, o: Table, x: Instance, at: Moment)
    requires x.id in t <==> x.id in o
    requires x.id in t ==> t[x.id].metrics == o[x.id].metrics && t[x.id].firstSeen == o[x.id].firstSeen
    ensures UpsertRow(Lookup(t, x.id), x, at) == UpsertRow(Lookup(o, x.id), x, at)
  {}

  lemma ReplayUnsighted(t: Table, b: Batch, id: string)
    requires ValidBatch(b) && Sound(t) && id in t && !InBatch(b.instances, id)
    ensures var done := Reconciled(t, b);
            id in done && UnsightedRow(Opening(done[id], b), b.instances, b.observedAt) == done[id]
  {
    var done := Reconciled(t, b);
    FinalPoint(t, b, id);
    var o := Opening(t[id], b);
    OpeningKeeps(done[id], b);
    OpeningSettled(t[id], b);
    OpeningRow(t[id], b);
  }

  // Running the same batch again at the same time changes nothing, exactly when it
  // brought no metrics for an unknown container that is not running.
  lemma ReplayIsNoOp(t: Table, b: Batch)
    requires ValidBatch(b) && Sound(t)
    ensures Reconciled(Reconciled(t, b), b) == Reconciled(t, b)
       <==> forall i :: 0 <= i < |b.instances| ==> !IdleMetrics(t, b.instances[i])
  {
    var done := Reconciled(t, b);
    var again := Reconciled(done, b);
    ReconciledSound(t, b);
    if forall i :: 0 <= i < |b.instances| ==> !IdleMetrics(t, b.instances[i]) {
      ReplayForward(t, b);
    } else {
      var i :| 0 <= i < |b.instances| && IdleMetrics(t, b.instances[i]);
      ReplaySighted(t, b, i);
      FinalPoint(done, b, b.instances[i].id);
      assert again[b.instances[i].id] != done[b.instances[i].id];
    }
  }

  lemma ReplayPoint(t: Table, b: Batch, id: string)
    requires ValidBatch(b) && Sound(t)
    requires forall i :: 0 <= i < |b.instances| ==> !IdleMetrics(t, b.instances[i])
    ensures var done := Reconciled(t, b);
            var s := SightAll(OpenTable(done, b), b.instances, b.observedAt);
            (id in s <==> id in done) && (id in s ==> s[id] == done[id])
  {
    var o := OpenTable(Reconciled(t, b), b);
    SightAllShape(o, b.instances, b.observedAt);
    FinalPoint(t, b, id);
    if InBatch(b.instances, id) {
      var i :| 0 <= i < |b.instances| && b.instances[i].id == id;
      ReplaySighted(t, b, i);
      assert SightAll(o, b.instances, b.observedAt)[b.instances[i].id] == SightedRow(o, b.instances, i, b.observedAt);
    } else if id in t {
      ReplayUnsighted(t, b, id);
    }
  }

  lemma ReplayForward(t: Table, b: Batch)
    requires ValidBatch(b) && Sound(t)
    requires forall i :: 0 <= i < |b.instances| ==> !IdleMetrics(t, b.instances[i])
    ensures Reconciled(Reconciled(t, b), b) == Reconciled(t, b)
  {
    var done := Reconciled(t, b);
    var s := SightAll(OpenTable(done, b), b.instances, b.observedAt);
    forall id
      ensures id in s <==> id in done
      ensures id in s ==> s[id] == done[id]
    {
      ReplayPoint(t, b, id);
    }
    assert s == done;
    RetireReplacedSettled(SightAll(OpenTable(t, b), b.instances, b.observedAt), b.observedAt);
  }

  // ---------- runs ----------

  // Every writer of the table. A batch that fails validation, and any transaction
  // that rolls back, leaves the table as it was.
  datatype Step =
    | Reconcile(batch: Batch)
    | Approve(id: string, details: string)
    | Ignore(id: string)
    | Sample(id: string, metrics: Metrics, at: Moment)
    | Retain(ids: set<string>)

  predicate Accepted(s: Step) { s.Reconcile? && ValidBatch(s.batch) }

  predicate CompleteBatch(s: Step) { Accepted(s) && s.batch.complete }

  predicate Sees(s: Step, id: string) { Accepted(s) && InBatch(s.batch.instances, id) }

  function Apply(t: Table, s: Step): Table {
    match s
    case Reconcile(b) => if ValidBatch(b) then Reconciled(t, b) else t
    case Approve(id, details) => if id in t then t[id := t[id].(kind := ApprovedObserved, details := details)] else t
    case Ignore(id) => if id in t then t[id := t[id].(kind := Ignored)] else t
    case Sample(id, metrics, at) =>
      if id in t && t[id].current && t[id].state == "running" then t[id := t[id].(metrics := metrics, updatedAt := at)] else t
    case Retain(ids) => map id | id in t && !(id in ids && !t[id].current && !t[id].present) :: t[id]
  }

  function Run(steps: seq<Step>): Table {
    if steps == [] then map[] else Apply(Run(steps[..|steps| - 1]), steps[|steps| - 1])
  }

  lemma ApplySound(t: Table, s: Step)
    requires Sound(t)
    ensures Sound(Apply(t, s))
  {
    if Accepted(s) { ReconciledSound(t, s.batch); }
  }

  // Every reachable table has at most one current row per name, present rows are
  // current, and a row is present exactly when it carries no absence time.
  lemma {:induction false} RunSound(steps: seq<Step>)
    ensures Sound(Run(steps))
  {
    if steps != [] {
      RunSound(steps[..|steps| - 1]);
      ApplySound(Run(steps[..|steps| - 1]), steps[|steps| - 1]);
    }
  }

  // ---------- the missing clock ----------

  // The time of the first complete batch since the last sighting of the container.
  function AbsentSince(steps: seq<Step>, id: string): Option<Moment> {
    if steps == [] then None
    else
      var s, before := steps[|steps| - 1], AbsentSince(steps[..|steps| - 1], id);
      if Sees(s, id) then None
      else if before.None? && CompleteBatch(s) then Some(s.batch.observedAt)
      else before
  }

  // Some complete batch since the last sighting found the grace period over.
  predicate Overdue(steps: seq<Step>, id: string) {
    if steps == [] then false
    else
      var s, since := steps[|steps| - 1], AbsentSince(steps, id);
      && !Sees(s, id)
      && (Overdue(steps[..|steps| - 1], id)
          || (CompleteBatch(s) && since.Some? && PastGrace(since.value, s.batch)))
  }

  // The class the last sighting gave the container.
  function SightedClass(steps: seq<Step>, id: string): Option<Class> {
    if steps == [] then None
    else
      var s := steps[|steps| - 1];
      if Sees(s, id) then Some(ClassIn(s.batch.instances, id))
      else SightedClass(steps[..|steps| - 1], id)
  }

  function ClassIn(xs: seq<Instance>, id: string): Class {
    if xs == [] then Unknown
    else if xs[|xs| - 1].id == id then ClassOf(xs[|xs| - 1])
    else ClassIn(xs[..|xs| - 1], id)
  }

  function ClassOf(x: Instance): Class { if x.kind.Some? then x.kind.value else Unknown }

  // Approved by an operator since the last sighting.
  predicate ApprovedSince(steps: seq<Step>, id: string) {
    if steps == [] then false
    else
      var s := steps[|steps| - 1];
      !Sees(s, id) && (ApprovedSince(steps[..|steps| - 1], id) || (s.Approve? && s.id == id))
  }

  predicate EverExpected(steps: seq<Step>, id: string) {
    (SightedClass(steps, id).Some? && Expected(SightedClass(steps, id).value)) || ApprovedSince(steps, id)
  }

  // The clock invariant of one row.
  ghost predicate ClockRow(steps: seq<Step>, id: string, r: Row) {
    && SightedClass(steps, id).Some?
    && (r.present ==> AbsentSince(steps, id).None?)
    && (r.current && !r.present ==> AbsentSince(steps, id).Some? && r.absentAt == AbsentSince(steps, id))
    && (Expected(r.kind) ==> EverExpected(steps, id))
    && (r.kind.MissingExpected? ==>
          (Overdue(steps, id) && EverExpected(steps, id)) || SightedClass(steps, id) == Some(MissingExpected))
  }

  lemma {:induction false} ClassAt(xs: seq<Instance>, i: nat)
    requires DistinctIds(xs) && i < |xs|
    ensures ClassIn(xs, xs[i].id) == ClassOf(xs[i])
  {
    var n := |xs| - 1;
    if i < n {
      ClassAt(xs[..n], i);
    }
  }

  lemma ClockSighted(steps: seq<Step>, id: string)
    requires steps != [] && Sees(steps[|steps| - 1], id)
    ensures id in Run(steps) && ClockRow(steps, id, Run(steps)[id])
  {
    var before, b := Run(steps[..|steps| - 1]), steps[|steps| - 1].batch;
    RunSound(steps[..|steps| - 1]);
    FinalPoint(before, b, id);
    var i :| 0 <= i < |b.instances| && b.instances[i].id == id;
    ClassAt(b.instances, i);
  }

  lemma ClockUnsighted(steps: seq<Step>, id: string)
    requires steps != []
    requires var s, before := steps[|steps| - 1], Run(steps[..|steps| - 1]);
             Accepted(s) && !Sees(s, id) && id in before && ClockRow(steps[..|steps| - 1], id, before[id])
    ensures id in Run(steps) && ClockRow(steps, id, Run(steps)[id])
  {
    var before, b := Run(steps[..|steps| - 1]), steps[|steps| - 1].batch;
    RunSound(steps[..|steps| - 1]);
    FinalPoint(before, b, id);
    ClockOpening(steps, id, before[id]);
  }

  lemma ClockOpening(steps: seq<Step>, id: string, r: Row)
    requires steps != [] && RowSound(r)
    requires var s := steps[|steps| - 1]; Accepted(s) && !Sees(s, id)
    requires ClockRow(steps[..|steps| - 1], id, r)
    ensures ClockRow(steps, id, Opening(r, steps[|steps| - 1].batch))
  {}

  lemma {:induction false} Clock(steps: seq<Step>, id: string)
    requires id in Run(steps)
    ensures ClockRow(steps, id, Run(steps)[id])
  {
    var s := steps[|steps| - 1];
    var before := steps[..|steps| - 1];
    if Sees(s, id) {
      ClockSighted(steps, id);
    } else if Accepted(s) {
      RunSound(before);
      FinalPoint(Run(before), s.batch, id);
      Clock(before, id);
      ClockUnsighted(steps, id);
    } else {
      Clock(before, id);
    }
  }

  // A container ends as missing only if it was expected and, unless the batch itself
  // said so, some complete batch came a full grace period after the first complete
  // batch that missed it. Sightings reset the clock.
  lemma MissingNeedsGrace(steps: seq<Step>, id: string)
    requires id in Run(steps) && Run(steps)[id].kind.MissingExpected?
    ensures SightedClass(steps, id) == Some(MissingExpected) || (EverExpected(steps, id) && Overdue(steps, id))
  {
    Clock(steps, id);
  }

  // A miss at position `first` that no later step took back.
  ghost predicate MissedFrom(steps: seq<Step>, id: string, first: nat) {
    && first < |steps| && CompleteBatch(steps[first])
    && AbsentSince(steps, id) == Some(steps[first].batch.observedAt)
    && forall k :: first <= k < |steps| ==> !Sees(steps[k], id)
  }

  lemma MissedStays(steps: seq<Step>, id: string, first: nat)
    requires steps != [] && MissedFrom(steps[..|steps| - 1], id, first) && !Sees(steps[|steps| - 1], id)
    ensures MissedFrom(steps, id, first)
  {
    var before := steps[..|steps| - 1];
    forall k | first <= k < |steps|
      ensures !Sees(steps[k], id)
    {
      if k < |before| { assert before[k] == steps[k]; }
    }
    assert before[first] == steps[first];
  }

  lemma {:induction false} FirstMiss(steps: seq<Step>, id: string) returns (first: nat)
    requires AbsentSince(steps, id).Some?
    ensures MissedFrom(steps, id, first)
  {
    var n := |steps| - 1;
    if AbsentSince(steps[..n], id).Some? {
      first := FirstMiss(steps[..n], id);
      MissedStays(steps, id, first);
    } else {
      first := n;
    }
  }

  // The same clock in terms of positions in the run.
  lemma {:induction false} OverdueWitness(steps: seq<Step>, id: string) returns (first: nat, last: nat)
    requires Overdue(steps, id)
    ensures MissedFrom(steps, id, first)
    ensures first <= last < |steps| && CompleteBatch(steps[last])
    ensures PastGrace(steps[first].batch.observedAt, steps[last].batch)
  {
    var n := |steps| - 1;
    if Overdue(steps[..n], id) {
      first, last := OverdueWitness(steps[..n], id);
      assert steps[..n][first] == steps[first] && steps[..n][last] == steps[last];
      MissedStays(steps, id, first);
    } else {
      first := FirstMiss(steps, id);
      last := n;
    }
  }

  // Both times the batch writes lie in the years that texts can hold.
  predicate StoredTimes(b: Batch) { Stored(b.observedAt) && (b.grace <= b.observedAt ==> Stored(Cutoff(b))) }

  // The clock compares stored texts, so it is exact to the second: the whole grace
  // period has passed unless the miss and the cutoff fall in the same second with
  // the miss written by fewer digits.
  lemma GraceElapsed(steps: seq<Step>, id: string) returns (first: nat, last: nat)
    requires Overdue(steps, id)
    requires forall k :: 0 <= k < |steps| && Accepted(steps[k]) ==> StoredTimes(steps[k].batch)
    ensures first <= last < |steps| && CompleteBatch(steps[first]) && CompleteBatch(steps[last])
    ensures steps[last].batch.grace <= steps[last].batch.observedAt
    ensures var miss, due := steps[first].batch.observedAt, Cutoff(steps[last].batch);
            && miss < due + NANOS
            && (miss <= due <==> !Misordered(due, miss))
  {
    first, last := OverdueWitness(steps, id);
    var miss, due := steps[first].batch.observedAt, Cutoff(steps[last].batch);
    assert StoredTimes(steps[first].batch) && StoredTimes(steps[last].batch);
    TextAtMostMeaning(miss, due);
  }

  lemma LoneRow(id: string, r: Row, b: Batch)
    requires ValidBatch(b) && b.instances == []
    ensures Reconciled(map[id := r], b) == map[id := Opening(r, b)]
  {
    var o := OpenTable(map[id := r], b);
    assert o == map[id := Opening(r, b)];
    assert RetireReplaced(o, b.observedAt) == o;
  }

  // The exception happens in every second and for every grace period: missed first
  // within the second that the cutoff of the judging batch opens, a managed container
  // is promoted before its grace period is over, because the text of a whole second
  // sorts last in that second.
  lemma GraceFiresEarly(x: Instance, seen: Batch, missed: Batch, judged: Batch)
    requires ValidBatch(seen) && ValidBatch(missed) && ValidBatch(judged) && missed.complete && judged.complete
    requires seen.instances == [x] && missed.instances == [] && judged.instances == [] && x.kind == Some(Managed)
    requires judged.grace <= judged.observedAt && Stored(Cutoff(judged)) && Nano(Cutoff(judged)) == 0
    requires Cutoff(judged) < missed.observedAt < Cutoff(judged) + NANOS
    ensures judged.observedAt - missed.observedAt < judged.grace
    ensures var steps := [Reconcile(seen), Reconcile(missed), Reconcile(judged)];
            x.id in Run(steps) && Run(steps)[x.id].kind.MissingExpected?
  {
    WholeSecondSortsLast(Cutoff(judged), missed.observedAt);
    LatePromotion(x, seen, missed, judged);
  }

  lemma LatePromotion(x: Instance, b0: Batch, b1: Batch, b2: Batch)
    requires ValidBatch(b0) && ValidBatch(b1) && ValidBatch(b2) && b1.complete && b2.complete
    requires b0.instances == [x] && b1.instances == [] && b2.instances == [] && x.kind == Some(Managed)
    requires PastGrace(b1.observedAt, b2)
    ensures var steps := [Reconcile(b0), Reconcile(b1), Reconcile(b2)];
            x.id in Run(steps) && Run(steps)[x.id].kind.MissingExpected?
  {
    var r0 := UpsertRow(None, x, b0.observedAt);
    FirstTable(x, b0);
    LoneRow(x.id, r0, b1);
    LoneRow(x.id, Opening(r0, b1), b2);
    ThreeSteps([Reconcile(b0), Reconcile(b1), Reconcile(b2)]);
    LateJudgement(r0, b1, b2);
  }

  lemma LateJudgement(r: Row, b1: Batch, b2: Batch)
    requires b1.complete && b2.complete
    requires r.current && r.present && r.absentAt.None? && r.kind.Managed?
    requires PastGrace(b1.observedAt, b2)
    ensures Opening(Opening(r, b1), b2).kind.MissingExpected?
  {}

  lemma ThreeSteps(steps: seq<Step>)
    requires |steps| == 3
    ensures Run(steps) == Apply(Apply(Apply(map[], steps[0]), steps[1]), steps[2])
  {
    assert steps[..2][..1] == steps[..1];
    assert steps[..1][..0] == [];
    assert Run(steps[..1]) == Apply(map[], steps[0]);
    assert Run(steps[..2]) == Apply(Run(steps[..1]), steps[1]);
  }

  lemma FirstTable(x: Instance, b: Batch)
    requires ValidBatch(b) && b.instances == [x]
    ensures Reconciled(map[], b) == map[x.id := UpsertRow(None, x, b.observedAt)]
  {
    assert b.instances[..0] == [];
    assert OpenTable(map[], b) == map[];
    var s := SightAll(map[], b.instances, b.observedAt);
    assert SightAll(map[], b.instances[..0], b.observedAt) == map[];
    assert RetireName(map[], x, b.observedAt) == map[];
    assert s == map[x.id := UpsertRow(None, x, b.observedAt)];
    assert RetireReplaced(s, b.observedAt) == s;
  }

  // ---------- the store ----------

  datatype Outcome = Committed | Rejected

  class ContainerStore {
    var rows: Table
    var reconciledAt: Option<Moment>
    var complete: bool
    var errorCategory: string
    var observedCount: nat

    constructor ()
      ensures rows == map[] && Sound(rows) && reconciledAt.None? && !complete && errorCategory == "" && observedCount == 0
    {
      rows, reconciledAt, complete, errorCategory, observedCount := map[], None, false, "", 0;
    }

    // UPDATE ... WHERE three times, the sightings, and the retirement of replaced rows.
    method Reconcile(b: Batch) returns (outcome: Outcome)
      requires Sound(rows)
      modifies this
      ensures Sound(rows)
      ensures outcome.Committed? <==> ValidBatch(b)
      ensures outcome.Committed? ==> rows == Reconciled(old(rows), b)
      ensures outcome.Committed? ==>
        reconciledAt == Some(b.observedAt) && complete == b.complete && errorCategory == b.errorCategory
        && observedCount == |b.instances|
      ensures outcome.Rejected? ==> unchanged(this)
    {
      var valid := Validate(b);
      if !valid { return Rejected; }
      var at := b.observedAt;
      var work := rows;
      if b.complete {
        work := map id | id in work :: MarkAbsent(work[id], at);
        work := map id | id in work :: Promote(work[id], b);
        work := map id | id in work :: RetireObserved(work[id], at);
      }
      assert work == OpenTable(rows, b);
      work := SightLoop(work, b.instances, at);
      if b.complete { work := RetireReplaced(work, at); }
      ReconciledSound(rows, b);
      rows := work;
      reconciledAt, complete, errorCategory, observedCount := Some(at), b.complete, b.errorCategory, |b.instances|;
      return Committed;
    }

    // One retire-and-upsert per container, inside the transaction.
    method SightLoop(t: Table, xs: seq<Instance>, at: Moment) returns (work: Table)
      ensures work == SightAll(t, xs, at)
    {
      work := t;
      var i := 0;
      while i < |xs|
        invariant 0 <= i <= |xs|
        invariant work == SightAll(t, xs[..i], at)
      {
        var x := xs[i];
        assert xs[..i + 1][..i] == xs[..i];
        work := RetireName(work, x, at);
        work := work[x.id := UpsertRow(Lookup(work, x.id), x, at)];
        i := i + 1;
      }
      assert xs[..|xs|] == xs;
    }

    // validateInventoryBatch: one pass with the set of identifiers seen so far.
    method Validate(b: Batch) returns (ok: bool)
      ensures ok <==> ValidBatch(b)
    {
      var seen: set<string> := {};
      var i := 0;
      while i < |b.instances|
        invariant 0 <= i <= |b.instances|
        invariant forall k :: 0 <= k < i ==>
          && !Blank(b.instances[k].id) && !Blank(b.instances[k].name)
          && |b.instances[k].id| <= 128 && |b.instances[k].name| <= 256
        invariant DistinctIds(b.instances[..i])
        invariant forall id :: id in seen <==> exists k :: 0 <= k < i && b.instances[k].id == id
      {
        var x := b.instances[i];
        if Blank(x.id) || Blank(x.name) || |x.id| > 128 || |x.name| > 256 || x.id in seen { return false; }
        seen := seen + {x.id};
        i := i + 1;
      }
      assert b.instances[..i] == b.instances;
      return true;
    }
  }
}

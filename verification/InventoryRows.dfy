/**
 What one batch does to one row, column by column, in terms of the row and the batch
 alone.
 */
module InventoryRows {
  import opened Common
  import opened StoredTime
  import opened Inventory

  // A container that ends up present runs the same service: the same nonempty service id,
  // or the same nonempty compose project and the same nonempty compose service.
  predicate ServiceSeen(xs: seq<Instance>, r: Row) {
    exists i :: 0 <= i < |xs| && !NameReused(xs, i)
                && ((r.serviceId != "" && xs[i].serviceId == r.serviceId)
                    || (r.project != "" && r.service != "" && xs[i].project == r.project && xs[i].service == r.service))
  }

  // How long a row has been absent, seen from a complete batch at `at` that misses it.
  function AbsentFrom(r: Row, at: Moment): Moment { if r.absentAt.Some? then r.absentAt.value else at }

  predicate Watched(r: Row) { r.kind.Managed? || r.kind.ApprovedObserved? || r.kind.MissingExpected? }

  // The row is missing, or becomes so: its absence reaches back a grace period, by the
  // stored texts.
  predicate IsMissing(r: Row, b: Batch) {
    r.kind.MissingExpected?
    || (b.grace <= b.observedAt && TextAtMost(AbsentFrom(r, b.observedAt), b.observedAt - b.grace))
  }

  lemma PromoteMeans(r: Row, b: Batch)
    requires r.current && !r.present && r.absentAt.Some? && Watched(r)
    ensures Promote(r, b) == if IsMissing(r, b) && !r.kind.MissingExpected? then r.(kind := MissingExpected, updatedAt := b.observedAt) else r
  {}

  lemma OpenedWatched(r: Row, b: Batch)
    requires RowSound(r) && b.complete && r.current && Watched(r)
    ensures Opening(r, b) == r.(kind := if IsMissing(r, b) then MissingExpected else r.kind, present := false,
                                absentAt := Some(AbsentFrom(r, b.observedAt)), updatedAt := b.observedAt)
  {
    var m := MarkAbsent(r, b.observedAt);
    assert m == r.(present := false, absentAt := Some(AbsentFrom(r, b.observedAt)), updatedAt := b.observedAt);
    assert IsMissing(m, b) == IsMissing(r, b);
    PromoteMeans(m, b);
  }

  lemma OpenedOther(r: Row, b: Batch)
    requires RowSound(r) && b.complete && (!r.current || !Watched(r))
    ensures Opening(r, b) ==
              if r.current then r.(current := false, present := false, absentAt := Some(b.observedAt), updatedAt := b.observedAt) else r
  {}

  // A present row of the final table is a batch container, with the batch's columns.
  lemma PresentRow(t: Table, b: Batch, other: string)
    requires Sound(t) && ValidBatch(b) && b.complete
    ensures var s := SightAll(OpenTable(t, b), b.instances, b.observedAt);
            other in s && s[other].present ==>
              exists i :: 0 <= i < |b.instances| && b.instances[i].id == other && !NameReused(b.instances, i)
                          && s[other].serviceId == b.instances[i].serviceId && s[other].project == b.instances[i].project
                          && s[other].service == b.instances[i].service
  {
    var o, xs := OpenTable(t, b), b.instances;
    SightAllShape(o, xs, b.observedAt);
    var s := SightAll(o, xs, b.observedAt);
    if other in s && s[other].present {
      if InBatch(xs, other) {
        var i :| 0 <= i < |xs| && xs[i].id == other;
        assert s[xs[i].id] == SightedRow(o, xs, i, b.observedAt);
          } else {
        OpeningRow(t[other], b);
      }
    }
  }

  // ... and every last container of a name is such a row.
  lemma SeenPresent(t: Table, b: Batch, i: nat)
    requires Sound(t) && ValidBatch(b) && b.complete && i < |b.instances| && !NameReused(b.instances, i)
    ensures var s, x := SightAll(OpenTable(t, b), b.instances, b.observedAt), b.instances[i];
            x.id in s && s[x.id].current && s[x.id].present
            && s[x.id].serviceId == x.serviceId && s[x.id].project == x.project && s[x.id].service == x.service
  {
    var o := OpenTable(t, b);
    SightAllShape(o, b.instances, b.observedAt);
    assert SightAll(o, b.instances, b.observedAt)[b.instances[i].id] == SightedRow(o, b.instances, i, b.observedAt);
  }

  lemma ReplacedMeans(t: Table, b: Batch, id: string)
    requires Sound(t) && ValidBatch(b) && b.complete && id in t && !InBatch(b.instances, id)
    requires var s := SightAll(OpenTable(t, b), b.instances, b.observedAt);
             id in s && s[id].current && !s[id].present && s[id].kind.MissingExpected?
    ensures var s := SightAll(OpenTable(t, b), b.instances, b.observedAt);
            Replaced(s, id) <==> ServiceSeen(b.instances, s[id])
  {
    var xs, s := b.instances, SightAll(OpenTable(t, b), b.instances, b.observedAt);
    if Replaced(s, id) {
      var other :| other in s && other != id && Replaces(s[other], s[id]);
      PresentRow(t, b, other);
    }
    if ServiceSeen(xs, s[id]) { SeenReplaces(t, b, id); }
  }

  lemma SeenReplaces(t: Table, b: Batch, id: string)
    requires Sound(t) && ValidBatch(b) && b.complete && id in t && !InBatch(b.instances, id)
    requires var s := SightAll(OpenTable(t, b), b.instances, b.observedAt);
             id in s && s[id].current && !s[id].present && s[id].kind.MissingExpected? && ServiceSeen(b.instances, s[id])
    ensures Replaced(SightAll(OpenTable(t, b), b.instances, b.observedAt), id)
  {
    var xs, s := b.instances, SightAll(OpenTable(t, b), b.instances, b.observedAt);
    var i :| 0 <= i < |xs| && !NameReused(xs, i)
             && ((s[id].serviceId != "" && xs[i].serviceId == s[id].serviceId)
                 || (s[id].project != "" && s[id].service != "" && xs[i].project == s[id].project && xs[i].service == s[id].service));
    SeenPresent(t, b, i);
    assert InBatch(xs, xs[i].id);
    assert Replaces(s[xs[i].id], s[id]);
  }

  lemma SightedMissed(t: Table, b: Batch, id: string)
    requires Sound(t) && ValidBatch(b) && b.complete && id in t && !InBatch(b.instances, id)
    ensures var s := SightAll(OpenTable(t, b), b.instances, b.observedAt);
            id in s && s[id] == UnsightedRow(Opening(t[id], b), b.instances, b.observedAt)
            && id in Reconciled(t, b)
            && Reconciled(t, b)[id] == if Replaced(s, id) then s[id].(current := false, updatedAt := b.observedAt) else s[id]
  {
    SightAllShape(OpenTable(t, b), b.instances, b.observedAt);
    RetireReplacedPoint(SightAll(OpenTable(t, b), b.instances, b.observedAt), b.observedAt, id);
  }

  lemma UnwatchedRow(t: Table, b: Batch, id: string)
    requires Sound(t) && ValidBatch(b) && b.complete && id in t && !InBatch(b.instances, id)
    requires !t[id].current || !Watched(t[id])
    ensures id in Reconciled(t, b)
    ensures Reconciled(t, b)[id] ==
              if t[id].current then t[id].(current := false, present := false, absentAt := Some(b.observedAt), updatedAt := b.observedAt)
              else t[id]
  {
    SightedMissed(t, b, id);
    OpenedOther(t[id], b);
  }

  lemma WatchedRow(t: Table, b: Batch, id: string)
    requires Sound(t) && ValidBatch(b) && b.complete && id in t && !InBatch(b.instances, id)
    requires t[id].current && Watched(t[id])
    ensures id in Reconciled(t, b)
    ensures var r, at := t[id], b.observedAt;
            Reconciled(t, b)[id] ==
              r.(kind := if IsMissing(r, b) then MissingExpected else r.kind,
                 current := !Named(b.instances, r.name) && !(IsMissing(r, b) && ServiceSeen(b.instances, r)),
                 present := false,
                 absentAt := Some(if Named(b.instances, r.name) then at else AbsentFrom(r, at)),
                 updatedAt := at)
  {
    var s := SightAll(OpenTable(t, b), b.instances, b.observedAt);
    SightedMissed(t, b, id);
    OpenedWatched(t[id], b);
    if !Named(b.instances, t[id].name) && IsMissing(t[id], b) {
      ReplacedMeans(t, b, id);
      SameService(b.instances, s[id], t[id]);
    }
  }

  lemma SameService(xs: seq<Instance>, r: Row, q: Row)
    requires r.serviceId == q.serviceId && r.project == q.project && r.service == q.service
    ensures ServiceSeen(xs, r) <==> ServiceSeen(xs, q)
  {}

  // The final row of a container that a complete batch misses. A watched row stays current
  // unless its name was taken, or it is missing and its service was seen elsewhere.
  lemma MissedRow(t: Table, b: Batch, id: string)
    requires Sound(t) && ValidBatch(b) && b.complete && id in t && !InBatch(b.instances, id)
    ensures id in Reconciled(t, b)
    ensures var r, f, at := t[id], Reconciled(t, b)[id], b.observedAt;
            if !r.current then f == r
            else if !Watched(r) then f == r.(current := false, present := false, absentAt := Some(at), updatedAt := at)
            else
              f == r.(kind := if IsMissing(r, b) then MissingExpected else r.kind,
                      current := !Named(b.instances, r.name) && !(IsMissing(r, b) && ServiceSeen(b.instances, r)),
                      present := false,
                      absentAt := Some(if Named(b.instances, r.name) then at else AbsentFrom(r, at)),
                      updatedAt := at)
  {
    if t[id].current && Watched(t[id]) { WatchedRow(t, b, id); } else { UnwatchedRow(t, b, id); }
  }

  // In particular: an absent missing container outside a complete batch, whose name is not
  // taken, stays current exactly while no present container runs its service.
  lemma MissingStaysCurrent(t: Table, b: Batch, id: string)
    requires Sound(t) && ValidBatch(b) && b.complete && id in t && !InBatch(b.instances, id)
    requires t[id].current && t[id].kind.MissingExpected? && !Named(b.instances, t[id].name)
    ensures id in Reconciled(t, b)
    ensures Reconciled(t, b)[id].current <==> !ServiceSeen(b.instances, t[id])
  {
    MissedRow(t, b, id);
  }

  // A watched container that a complete batch misses is missing afterwards exactly when it
  // was before or its absence reaches back a grace period.
  lemma PromotedExactly(t: Table, b: Batch, id: string)
    requires Sound(t) && ValidBatch(b) && b.complete && id in t && !InBatch(b.instances, id) && t[id].current
    ensures id in Reconciled(t, b)
    ensures Reconciled(t, b)[id].kind.MissingExpected? <==> Watched(t[id]) && IsMissing(t[id], b)
  {
    MissedRow(t, b, id);
  }

  // What survives of live metrics.
  function Kept<T>(sent: Option<T>, prior: Option<T>): Option<T> { if sent.Some? then sent else prior }

  // The final row of a container of the batch, complete or not.
  lemma SeenRow(t: Table, b: Batch, i: nat)
    requires Sound(t) && ValidBatch(b) && i < |b.instances|
    ensures var x, at := b.instances[i], b.observedAt;
            && x.id in Reconciled(t, b)
            && var f, last := Reconciled(t, b)[x.id], !NameReused(b.instances, i);
               && f.name == x.name && f.state == x.state && f.details == x.details
               && f.project == x.project && f.service == x.service && f.serviceId == x.serviceId
               && f.kind == (if x.kind.Some? then x.kind.value else Unknown)
               && f.firstSeen == (if x.id in t then t[x.id].firstSeen else at)
               && f.lastSeen == at && f.updatedAt == at
               && f.current == last && f.present == last && f.absentAt == (if last then None else Some(at))
    ensures var x := b.instances[i];
            x.id in Reconciled(t, b) &&
            Reconciled(t, b)[x.id].metrics ==
              if x.id !in t then x.metrics
              else if x.state != "running" then Metrics(None, None, None, None)
              else
                var m := t[x.id].metrics;
                Metrics(Kept(x.metrics.cpu, m.cpu), Kept(x.metrics.memBytes, m.memBytes),
                        Kept(x.metrics.memLimit, m.memLimit), Kept(x.metrics.restarts, m.restarts))
  {
    var x := b.instances[i];
    assert InBatch(b.instances, x.id);
    FinalPoint(t, b, x.id);
    if x.id in t { OpeningKeeps(t[x.id], b); }
  }

  // No other container appears or disappears.
  lemma SameContainers(t: Table, b: Batch, id: string)
    requires Sound(t) && ValidBatch(b)
    ensures id in Reconciled(t, b) <==> id in t || exists i :: 0 <= i < |b.instances| && b.instances[i].id == id
  {
    FinalPoint(t, b, id);
  }

  // ---------- the other writers ----------

  // An approval or an ignore reclassifies one stored row and touches nothing else of it but
  // the fingerprints that were approved.
  lemma Reclassified(t: Table, id: string, details: string, other: string)
    ensures var a, i := Apply(t, Approve(id, details)), Apply(t, Ignore(id));
            && (other in a <==> other in t) && (other in i <==> other in t)
            && (other in t && other != id ==> a[other] == t[other] && i[other] == t[other])
            && (id in t ==> a[id] == t[id].(kind := ApprovedObserved, details := details) && i[id] == t[id].(kind := Class.Ignored))
  {}

  // A live sample reaches only a current running row; retention deletes only listed rows
  // that are neither current nor present.
  lemma SampledOrDeleted(t: Table, id: string, metrics: Metrics, at: Moment, ids: set<string>, other: string)
    ensures var s, d := Apply(t, Sample(id, metrics, at)), Apply(t, Retain(ids));
            && (other in s <==> other in t)
            && (other in t ==>
                  s[other] == if other == id && t[other].current && t[other].state == "running" then t[other].(metrics := metrics, updatedAt := at)
                              else t[other])
            && (other in d <==> other in t && (other !in ids || t[other].current || t[other].present))
            && (other in d ==> d[other] == t[other])
  {}
}

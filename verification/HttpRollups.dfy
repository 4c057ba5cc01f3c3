/**
 The performance store for HTTP timings: additive minute buckets deduplicated by ingest
 key, and hourly rollups kept in step with them.
 */
module HttpRollups {
  import opened Common
  import opened StoredTime
  import opened TextOrder
  import H = Histogram

  const MINUTE_NANOS: nat := 60_000_000_000

  // Go's zero time, 0001-01-01 00:00:00: year 0 is a leap year of 366 days.
  const ZERO_TIME: Moment := 366 * 1440 * MINUTE_NANOS

  datatype Dims = Dims(service: string, environment: string, verb: string, route: string, upstream: string, statusClass: int)

  // Sums are exact numbers; SQLite adds the same columns in floating point.
  datatype Totals = Totals(
    requests: nat, errors: nat, duration: real, connect: real, header: real, response: real,
    bytesSent: nat, requestBytes: nat, histogram: H.Counts)

  function Plus(a: Totals, b: Totals): Totals {
    Totals(a.requests + b.requests, a.errors + b.errors, a.duration + b.duration, a.connect + b.connect,
           a.header + b.header, a.response + b.response, a.bytesSent + b.bytesSent, a.requestBytes + b.requestBytes,
           H.Add(a.histogram, b.histogram))
  }

  lemma PlusLaws(a: Totals, b: Totals, c: Totals)
    ensures Plus(a, b) == Plus(b, a)
    ensures Plus(Plus(a, b), c) == Plus(a, Plus(b, c))
  {
    assert H.Add(a.histogram, b.histogram) == H.Add(b.histogram, a.histogram);
    assert H.Add(H.Add(a.histogram, b.histogram), c.histogram) == H.Add(a.histogram, H.Add(b.histogram, c.histogram));
  }

  // SUM over two groups, where a group without rows has no sum.
  function Join(a: Option<Totals>, b: Option<Totals>): Option<Totals> {
    if a.None? then b else if b.None? then a else Some(Plus(a.value, b.value))
  }

  lemma JoinLaws(a: Option<Totals>, b: Option<Totals>, c: Option<Totals>)
    ensures Join(a, b) == Join(b, a)
    ensures Join(Join(a, b), c) == Join(a, Join(b, c))
  {
    if a.Some? && b.Some? && c.Some? { PlusLaws(a.value, b.value, c.value); }
    else if a.Some? && b.Some? { PlusLaws(a.value, b.value, a.value); }
  }

  // A row key: the number of the minute (or hour) and the dimensions.
  type Key = (nat, Dims)

  type Rows = map<Key, Totals>

  datatype Bucket = Bucket(start: Moment, dims: Dims, totals: Totals, ingestKey: string)

  // The bucket key hash is injective, so a marker is the hashed tuple itself.
  datatype Marker = Marker(ingestKey: string, minute: nat, dims: Dims)

  datatype Store = Store(markers: set<Marker>, minutes: Rows, hours: Rows)

  const BLANK := Store({}, map[], map[])

  function MinuteOf(b: Bucket): nat { b.start / MINUTE_NANOS }

  function MarkerOf(b: Bucket): Marker { Marker(b.ingestKey, MinuteOf(b), b.dims) }

  function MinuteKey(b: Bucket): Key { (MinuteOf(b), b.dims) }

  function HourKey(k: Key): Key { (k.0 / 60, k.1) }

  predicate ValidBucket(b: Bucket) {
    && b.start != ZERO_TIME
    && b.dims.service != "" && b.dims.environment != "" && b.dims.verb != "" && b.dims.route != "" && b.dims.upstream != ""
    && 1 <= b.dims.statusClass <= 5 && b.ingestKey != "" && |b.ingestKey| <= 256
  }

  function Lookup(rows: Rows, k: Key): Option<Totals> { if k in rows then Some(rows[k]) else None }

  // INSERT ... ON CONFLICT DO UPDATE SET column = column + excluded.column
  function AddRow(rows: Rows, k: Key, t: Totals): Rows { rows[k := if k in rows then Plus(rows[k], t) else t] }

  // The committed effect of one upsert: a known marker changes nothing.
  function Upserted(s: Store, b: Bucket): Store {
    if !ValidBucket(b) || MarkerOf(b) in s.markers then s
    else Store(s.markers + {MarkerOf(b)}, AddRow(s.minutes, MinuteKey(b), b.totals), AddRow(s.hours, HourKey(MinuteKey(b)), b.totals))
  }

  // ---------- rollups ----------

  // The sum of the first n minutes of an hour, if any of them has a row.
  function HourSum(minutes: Rows, h: Key, n: nat): Option<Totals> {
    if n == 0 then None else Join(HourSum(minutes, h, n - 1), Lookup(minutes, (h.0 * 60 + (n - 1), h.1)))
  }

  function HoursIn(minutes: Rows): set<Key> { set k | k in minutes :: HourKey(k) }

  // DELETE the hours of the range, then INSERT ... SELECT SUM ... GROUP BY.
  function RolledUp(s: Store, from: nat, to: nat): Store {
    s.(hours :=
         (map h | h in s.hours && !(from <= h.0 < to) :: s.hours[h])
         + (map h | h in HoursIn(s.minutes) && from <= h.0 < to && HourSum(s.minutes, h, 60).Some? :: HourSum(s.minutes, h, 60).value))
  }

  // From hour `floor` on, the stored hours are exactly the sums of their minutes.
  ghost predicate InStep(s: Store, floor: nat) {
    forall h: Key :: h.0 >= floor ==> Lookup(s.hours, h) == HourSum(s.minutes, h, 60)
  }

  lemma MinuteInHour(h: Key, i: nat)
    requires i < 60
    ensures HourKey((h.0 * 60 + i, h.1)) == h
  {}

  lemma MinuteOfHour(k: Key, i: nat)
    requires i < 60
    ensures (HourKey(k).0 * 60 + i, HourKey(k).1) == k <==> i == k.0 % 60
  {}

  // A sum changes only with the minutes of its own hour.
  lemma {:induction false} HourSumFrame(a: Rows, b: Rows, h: Key, n: nat)
    requires n <= 60
    requires forall k: Key :: HourKey(k) == h ==> Lookup(a, k) == Lookup(b, k)
    ensures HourSum(a, h, n) == HourSum(b, h, n)
  {
    if n > 0 {
      HourSumFrame(a, b, h, n - 1);
      MinuteInHour(h, n - 1);
    }
  }

  lemma {:induction false} HourSumAdd(minutes: Rows, k: Key, t: Totals, n: nat)
    requires n <= 60
    ensures HourSum(AddRow(minutes, k, t), HourKey(k), n) ==
      if k.0 % 60 < n then Join(HourSum(minutes, HourKey(k), n), Some(t)) else HourSum(minutes, HourKey(k), n)
  {
    if n > 0 {
      var h := HourKey(k);
      var here: Key := (h.0 * 60 + (n - 1), h.1);
      HourSumAdd(minutes, k, t, n - 1);
      MinuteOfHour(k, n - 1);
      JoinLaws(HourSum(minutes, h, n - 1), Lookup(minutes, here), Some(t));
      JoinLaws(HourSum(minutes, h, n - 1), Some(t), Lookup(minutes, here));
      JoinLaws(Some(t), Lookup(minutes, here), None);
    }
  }

  // A stored hour belongs to some stored minute.
  lemma {:induction false} HourSumNeedsRow(minutes: Rows, h: Key, n: nat)
    requires n <= 60 && HourSum(minutes, h, n).Some?
    ensures h in HoursIn(minutes)
  {
    MinuteInHour(h, n - 1);
    if Lookup(minutes, (h.0 * 60 + (n - 1), h.1)).None? { HourSumNeedsRow(minutes, h, n - 1); }
  }

  // Adding one bucket to its minute and to its hour keeps the two in step.
  lemma UpsertInStep(s: Store, b: Bucket, floor: nat)
    requires InStep(s, floor)
    ensures InStep(Upserted(s, b), floor)
  {
    if ValidBucket(b) && MarkerOf(b) !in s.markers {
      var k, s' := MinuteKey(b), Upserted(s, b);
      forall h: Key | h.0 >= floor
        ensures Lookup(s'.hours, h) == HourSum(s'.minutes, h, 60)
      {
        if h == HourKey(k) {
          HourSumAdd(s.minutes, k, b.totals, 60);
        } else {
          HourSumFrame(s.minutes, s'.minutes, h, 60);
        }
      }
    }
  }

  // A rollup puts its own range in step, whatever was stored there.
  lemma RollupRepairs(s: Store, from: nat, to: nat, h: Key)
    ensures Lookup(RolledUp(s, from, to).hours, h) ==
      if from <= h.0 < to then HourSum(s.minutes, h, 60) else Lookup(s.hours, h)
  {
    if HourSum(s.minutes, h, 60).Some? { HourSumNeedsRow(s.minutes, h, 60); }
  }

  // Recomputing any range of hours that are in step is a no-op.
  lemma RollupIsNoOp(s: Store, from: nat, to: nat)
    requires InStep(s, from)
    ensures RolledUp(s, from, to) == s
  {
    var r := RolledUp(s, from, to).hours;
    forall h: Key
      ensures Lookup(r, h) == Lookup(s.hours, h)
    {
      RollupRepairs(s, from, to, h);
    }
    SameRows(r, s.hours);
  }

  lemma SameRows(a: Rows, b: Rows)
    requires forall h: Key :: Lookup(a, h) == Lookup(b, h)
    ensures a == b
  {
    forall h
      ensures h in a <==> h in b
      ensures h in a ==> a[h] == b[h]
    {
      assert Lookup(a, h) == Lookup(b, h);
    }
  }

  // ---------- retention ----------

  // TrimHTTPBefore compares the nine-digit bucket text with the trimmed cutoff text.
  predicate BelowCutoff(minute: nat, cutoff: Moment) {
    Less(FormatFixedTime(minute * MINUTE_NANOS), FormatTime(cutoff))
  }

  // The statement is documented to delete rows before the cutoff; it deletes the row at
  // the cutoff too.
  lemma TrimTakesTheCutoff(minute: nat, cutoff: Moment)
    requires Stored(minute * MINUTE_NANOS) && Stored(cutoff)
    ensures BelowCutoff(minute, cutoff) <==> minute * MINUTE_NANOS <= cutoff
  {
    WholeMinute(minute);
    FixedBeforeTrimmed(minute * MINUTE_NANOS, cutoff);
  }

  lemma WholeMinute(minute: nat)
    ensures Nano(minute * MINUTE_NANOS) == 0
  {
    assert minute * MINUTE_NANOS == (minute * 60) * NANOS;
  }

  // Deletes the listed minute rows below the cutoff, and every marker below it.
  function Trimmed(s: Store, rows: set<Key>, below: nat -> bool): Store {
    Store(set m | m in s.markers && !below(m.minute) :: m,
          map k | k in s.minutes && !(k in rows && below(k.0)) :: s.minutes[k],
          s.hours)
  }

  // A trim forgets which buckets were stored below its cutoff, and only those: a replay of
  // a known bucket changes nothing exactly when its minute was not trimmed.
  lemma ReplayAfterTrim(s: Store, rows: set<Key>, below: nat -> bool, b: Bucket)
    requires ValidBucket(b) && MarkerOf(b) in s.markers
    ensures var t := Trimmed(s, rows, below); Upserted(t, b) == t <==> !below(b.start / MINUTE_NANOS)
  {
    var t := Trimmed(s, rows, below);
    if below(MinuteOf(b)) { assert MarkerOf(b) in Upserted(t, b).markers && MarkerOf(b) !in t.markers; }
  }

  // The listed rows below the cutoff go, every other row stays as it is.
  lemma TrimmedRow(s: Store, rows: set<Key>, below: nat -> bool, k: Key)
    ensures var t := Trimmed(s, rows, below);
            t.hours == s.hours && (k in t.minutes <==> k in s.minutes && !(k in rows && below(k.0))) && (k in t.minutes ==> t.minutes[k] == s.minutes[k])
  {}

  // Trimming below an hour boundary leaves the hours above it in step.
  lemma TrimInStep(s: Store, rows: set<Key>, below: nat -> bool, floor: nat)
    requires InStep(s, floor) && forall m: nat :: below(m) ==> m / 60 < floor
    ensures InStep(Trimmed(s, rows, below), floor)
  {
    var t := Trimmed(s, rows, below);
    forall h: Key | h.0 >= floor
      ensures Lookup(t.hours, h) == HourSum(t.minutes, h, 60)
    {
      forall k: Key | HourKey(k) == h
        ensures Lookup(t.minutes, k) == Lookup(s.minutes, k)
      {
        assert !below(k.0);
      }
      HourSumFrame(s.minutes, t.minutes, h, 60);
    }
  }

  // ---------- runs ----------

  datatype Step =
    | Upsert(bucket: Bucket)
    | Rollup(from: nat, to: nat)
    | Trim(rows: set<Key>, below: nat -> bool)

  function Apply(s: Store, step: Step): Store {
    match step
    case Upsert(b) => Upserted(s, b)
    case Rollup(from, to) => RolledUp(s, from, to)
    case Trim(rows, below) => Trimmed(s, rows, below)
  }

  function After(steps: seq<Step>, n: nat): Store
    requires n <= |steps|
  {
    if n == 0 then BLANK else Apply(After(steps, n - 1), steps[n - 1])
  }

  // No trim of the run reaches the hour.
  ghost predicate TrimsBelow(steps: seq<Step>, floor: nat) {
    forall i :: 0 <= i < |steps| && steps[i].Trim? ==> forall m: nat :: steps[i].below(m) ==> m / 60 < floor
  }

  lemma RollupInStep(s: Store, from: nat, to: nat, floor: nat)
    requires InStep(s, floor)
    ensures InStep(RolledUp(s, from, to), floor)
  {
    forall h: Key | h.0 >= floor
      ensures Lookup(RolledUp(s, from, to).hours, h) == HourSum(s.minutes, h, 60)
    {
      RollupRepairs(s, from, to, h);
    }
  }

  lemma EmptyInStep(h: Key, n: nat)
    requires n <= 60
    ensures HourSum(map[], h, n).None?
  {
    if HourSum(map[], h, n).Some? { HourSumNeedsRow(map[], h, n); }
  }

  lemma StepInStep(s: Store, step: Step, floor: nat)
    requires InStep(s, floor)
    requires step.Trim? ==> forall m: nat :: step.below(m) ==> m / 60 < floor
    ensures InStep(Apply(s, step), floor)
  {
    match step
    case Upsert(b) => UpsertInStep(s, b, floor);
    case Rollup(from, to) => RollupInStep(s, from, to, floor);
    case Trim(rows, below) => TrimInStep(s, rows, below, floor);
  }

  // Through every run of upserts (replays included), rollups and trims, each hour above
  // the trimmed ones equals the sum of its minutes, so recomputing it changes nothing.
  lemma {:induction false} RunInStep(steps: seq<Step>, n: nat, floor: nat)
    requires n <= |steps| && TrimsBelow(steps, floor)
    ensures InStep(After(steps, n), floor)
  {
    if n == 0 {
      forall h: Key { EmptyInStep(h, 60); }
    } else {
      RunInStep(steps, n - 1, floor);
      StepInStep(After(steps, n - 1), steps[n - 1], floor);
    }
  }

  lemma RecomputingIsNoOp(steps: seq<Step>, from: nat, to: nat)
    requires TrimsBelow(steps, from)
    ensures RolledUp(After(steps, |steps|), from, to) == After(steps, |steps|)
  {
    RunInStep(steps, |steps|, from);
    RollupIsNoOp(After(steps, |steps|), from, to);
  }

  // ---------- each contribution once ----------

  function UpsertAll(s: Store, calls: seq<Bucket>): Store {
    if calls == [] then s else Upserted(UpsertAll(s, calls[..|calls| - 1]), calls[|calls| - 1])
  }

  predicate Brings(calls: seq<Bucket>, m: Marker) {
    exists i :: 0 <= i < |calls| && ValidBucket(calls[i]) && MarkerOf(calls[i]) == m
  }

  // The valid calls, each marker's first one only.
  function Dedup(calls: seq<Bucket>): seq<Bucket> {
    if calls == [] then []
    else
      var init, b := calls[..|calls| - 1], calls[|calls| - 1];
      if !ValidBucket(b) || Brings(init, MarkerOf(b)) then Dedup(init) else Dedup(init) + [b]
  }

  // The sum of the listed buckets of one minute row.
  function Contributions(calls: seq<Bucket>, k: Key): Option<Totals> {
    if calls == [] then None
    else
      var b := calls[|calls| - 1];
      Join(Contributions(calls[..|calls| - 1], k), if MinuteKey(b) == k then Some(b.totals) else None)
  }

  lemma BringsSplit(calls: seq<Bucket>, m: Marker)
    requires calls != []
    ensures Brings(calls, m) <==>
      Brings(calls[..|calls| - 1], m) || (ValidBucket(calls[|calls| - 1]) && MarkerOf(calls[|calls| - 1]) == m)
  {
    var init := calls[..|calls| - 1];
    if i :| 0 <= i < |calls| && ValidBucket(calls[i]) && MarkerOf(calls[i]) == m {
      if i < |init| { assert init[i] == calls[i]; }
    }
    if i :| 0 <= i < |init| && ValidBucket(init[i]) && MarkerOf(init[i]) == m { assert calls[i] == init[i]; }
  }

  lemma {:induction false} MarkersAre(calls: seq<Bucket>, m: Marker)
    ensures m in UpsertAll(BLANK, calls).markers <==> Brings(calls, m)
  {
    if calls != [] {
      MarkersAre(calls[..|calls| - 1], m);
      BringsSplit(calls, m);
    }
  }

  // Every minute row is the sum of the first calls of each marker: a replay, even with
  // other numbers, adds nothing.
  lemma {:induction false} StoredOnce(calls: seq<Bucket>, k: Key)
    ensures Lookup(UpsertAll(BLANK, calls).minutes, k) == Contributions(Dedup(calls), k)
  {
    if calls != [] {
      var init, b := calls[..|calls| - 1], calls[|calls| - 1];
      StoredOnce(init, k);
      MarkersAre(init, MarkerOf(b));
      if ValidBucket(b) && !Brings(init, MarkerOf(b)) {
        assert (Dedup(init) + [b])[..|Dedup(init)|] == Dedup(init);
      }
    }
  }

  // Replaying any calls of the past, in any order and number, changes nothing.
  lemma {:induction false} ReplaysAreHarmless(calls: seq<Bucket>, replays: seq<Bucket>)
    requires forall i :: 0 <= i < |replays| && ValidBucket(replays[i]) ==> Brings(calls, MarkerOf(replays[i]))
    ensures UpsertAll(UpsertAll(BLANK, calls), replays) == UpsertAll(BLANK, calls)
  {
    if replays != [] {
      var last := replays[|replays| - 1];
      ReplaysAreHarmless(calls, replays[..|replays| - 1]);
      MarkersAre(calls, MarkerOf(last));
    }
  }

  // ---------- request totals ----------

  ghost function Pick(rows: Rows): Key
    requires rows != map[]
    ensures Pick(rows) in rows
  {
    assert rows.Keys != {};
    var k :| k in rows; k
  }

  ghost function RequestTotal(rows: Rows): nat
    decreases |rows|
  {
    if rows == map[] then 0
    else
      var k := Pick(rows);
      assert |rows - {k}| < |rows| by { Smaller(rows, k); }
      rows[k].requests + RequestTotal(rows - {k})
  }

  lemma Smaller(rows: Rows, k: Key)
    requires k in rows
    ensures |rows - {k}| < |rows|
  {
    assert (rows - {k}).Keys == rows.Keys - {k};
  }

  lemma {:induction false} TotalSplit(rows: Rows, k: Key)
    requires k in rows
    ensures RequestTotal(rows) == rows[k].requests + RequestTotal(rows - {k})
    decreases |rows|
  {
    var j := Pick(rows);
    if j != k {
      Smaller(rows, j);
      Smaller(rows, k);
      TotalSplit(rows - {j}, k);
      TotalSplit(rows - {k}, j);
      assert rows - {j} - {k} == rows - {k} - {j};
    }
  }

  lemma TotalAdd(rows: Rows, k: Key, t: Totals)
    ensures RequestTotal(AddRow(rows, k, t)) == RequestTotal(rows) + t.requests
  {
    var after := AddRow(rows, k, t);
    TotalSplit(after, k);
    if k in rows {
      TotalSplit(rows, k);
      assert after - {k} == rows - {k};
    } else {
      assert after - {k} == rows;
    }
  }

  // An upsert adds its requests to both tables once, and nothing on a replay.
  lemma UpsertTotals(s: Store, b: Bucket)
    ensures var grown := if ValidBucket(b) && MarkerOf(b) !in s.markers then b.totals.requests else 0;
            && RequestTotal(Upserted(s, b).minutes) == RequestTotal(s.minutes) + grown
            && RequestTotal(Upserted(s, b).hours) == RequestTotal(s.hours) + grown
  {
    if ValidBucket(b) && MarkerOf(b) !in s.markers {
      TotalAdd(s.minutes, MinuteKey(b), b.totals);
      TotalAdd(s.hours, HourKey(MinuteKey(b)), b.totals);
    }
  }

  // ---------- the store object ----------

  class PerformanceStore {
    var markers: set<Marker>
    var minutes: Rows
    var hours: Rows

    ghost function View(): Store
      reads this
    {
      Store(markers, minutes, hours)
    }

    constructor ()
      ensures View() == BLANK
    {
      markers, minutes, hours := {}, map[], map[];
    }

    // One transaction; `commits` says whether the database accepts it.
    method UpsertHTTP(b: Bucket, commits: bool) returns (ok: bool)
      modifies this
      ensures ok <==> ValidBucket(b) && commits
      ensures View() == if ok then Upserted(old(View()), b) else old(View())
    {
      if b.start == ZERO_TIME || b.dims.service == "" || b.dims.environment == "" || b.dims.verb == "" || b.dims.route == ""
         || b.dims.upstream == "" || b.dims.statusClass < 1 || b.dims.statusClass > 5 || b.ingestKey == "" {
        return false;
      }
      if |b.ingestKey| > 256 || !commits { return false; }
      if MarkerOf(b) in markers { return true; }
      markers := markers + {MarkerOf(b)};
      var minute := MinuteKey(b);
      minutes := minutes[minute := if minute in minutes then Plus(minutes[minute], b.totals) else b.totals];
      var hour := HourKey(minute);
      hours := hours[hour := if hour in hours then Plus(hours[hour], b.totals) else b.totals];
      return true;
    }

    // Replaces the complete hours between two instants from the minute rows.
    method RollupHTTP(start: Moment, end: Moment) returns (ok: bool)
      modifies this
      ensures var from, to := start / (60 * MINUTE_NANOS), end / (60 * MINUTE_NANOS);
              (ok <==> from < to) && View() == if ok then RolledUp(old(View()), from, to) else old(View())
    {
      var from, to := start / (60 * MINUTE_NANOS), end / (60 * MINUTE_NANOS);
      if to <= from { return false; }
      hours := map h | h in hours && !(from <= h.0 < to) :: hours[h];
      var summed := map h | h in HoursIn(minutes) && from <= h.0 < to && HourSum(minutes, h, 60).Some? :: HourSum(minutes, h, 60).value;
      hours := hours + summed;
      return true;
    }
  }
}

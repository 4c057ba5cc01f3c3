/**
 The nginx timing pipeline end to end: read complete lines, aggregate them into minute
 buckets, upsert each bucket under the key `identity:offset`, then acknowledge.
 */
module TimingPipeline {
  import opened StoredTime
  import opened TextOrder
  import opened HttpRollups
  import opened TimingTail
  import H = Histogram
  import S = HttpSummary

  const MAX_DROPS: nat := 1_000_000_000

  datatype Config = Config(service: string, environment: string, identity: string, parse: Parser)

  // ---------- aggregation ----------

  // The minute of an observation; a zero time falls into the collector's own minute.
  function MinuteFor(o: Observation, clock: nat): nat {
    var m := o.at / MINUTE_NANOS;
    if m * MINUTE_NANOS == ZERO_TIME then clock else m
  }

  function KeyOf(cfg: Config, o: Observation, clock: nat): Key {
    (MinuteFor(o, clock), Dims(cfg.service, cfg.environment, o.verb, o.route, o.upstream, o.status / 100))
  }

  // The totals of a single request.
  function Single(o: Observation): Totals {
    Totals(1, if o.status >= 500 then 1 else 0, o.duration, o.connect, o.header, o.response, o.bytesSent, o.requestBytes,
           H.CountsOf([o.duration]))
  }

  function Aggregate(cfg: Config, os: seq<Observation>, clock: nat): Rows {
    if os == [] then map[]
    else
      var o := os[|os| - 1];
      AddRow(Aggregate(cfg, os[..|os| - 1], clock), KeyOf(cfg, o, clock), Single(o))
  }

  // The zero time has no minute of its own: the collector's minute stands in.
  predicate Undated(o: Observation) { ZERO_TIME <= o.at < ZERO_TIME + MINUTE_NANOS }

  // The observation belongs to the row of a minute and its columns.
  predicate FallsInto(cfg: Config, o: Observation, clock: nat, k: Key) {
    && k.1.service == cfg.service && k.1.environment == cfg.environment
    && k.1.verb == o.verb && k.1.route == o.route && k.1.upstream == o.upstream
    && k.1.statusClass * 100 <= o.status < k.1.statusClass * 100 + 100
    && (if Undated(o) then k.0 == clock else k.0 * MINUTE_NANOS <= o.at < (k.0 + 1) * MINUTE_NANOS)
  }

  lemma UndatedMinute(o: Observation)
    ensures Undated(o) <==> o.at / MINUTE_NANOS * MINUTE_NANOS == ZERO_TIME
  {
    assert ZERO_TIME == 527040 * MINUTE_NANOS;
    if o.at / MINUTE_NANOS * MINUTE_NANOS == ZERO_TIME { assert o.at / MINUTE_NANOS == 527040; }
  }

  lemma KeyMeans(cfg: Config, o: Observation, clock: nat, k: Key)
    ensures KeyOf(cfg, o, clock) == k <==> FallsInto(cfg, o, clock, k)
  {
    UndatedMinute(o);
  }

  // The observations of one row, in order.
  function Group(cfg: Config, os: seq<Observation>, clock: nat, k: Key): seq<Observation> {
    if os == [] then []
    else
      var o := os[|os| - 1];
      Group(cfg, os[..|os| - 1], clock, k) + if FallsInto(cfg, o, clock, k) then [o] else []
  }

  lemma {:induction false} GroupEmpty(cfg: Config, os: seq<Observation>, clock: nat, k: Key)
    ensures Group(cfg, os, clock, k) != [] <==> exists i :: 0 <= i < |os| && FallsInto(cfg, os[i], clock, k)
  {
    if os != [] {
      var init := os[..|os| - 1];
      GroupEmpty(cfg, init, clock, k);
      if i :| 0 <= i < |os| && FallsInto(cfg, os[i], clock, k) {
        if i < |init| { assert FallsInto(cfg, init[i], clock, k); }
      }
      if i :| 0 <= i < |init| && FallsInto(cfg, init[i], clock, k) { assert FallsInto(cfg, os[i], clock, k); }
    }
  }

  function Durations(os: seq<Observation>): seq<real> { seq(|os|, i requires 0 <= i < |os| => os[i].duration) }

  function Sum(os: seq<Observation>, part: Observation -> real): real {
    if os == [] then 0.0 else Sum(os[..|os| - 1], part) + part(os[|os| - 1])
  }

  const DURATION: Observation -> real := (o: Observation) => o.duration
  const CONNECT: Observation -> real := (o: Observation) => o.connect
  const HEADER: Observation -> real := (o: Observation) => o.header
  const RESPONSE: Observation -> real := (o: Observation) => o.response
  const SENT: Observation -> real := (o: Observation) => o.bytesSent as real
  const RECEIVED: Observation -> real := (o: Observation) => o.requestBytes as real

  function Errors(os: seq<Observation>): nat {
    if os == [] then 0 else Errors(os[..|os| - 1]) + if os[|os| - 1].status >= 500 then 1 else 0
  }

  // A bucket states the count, the sums and the histogram of its requests.
  ghost predicate Describes(t: Totals, os: seq<Observation>) {
    && t.requests == |os| && t.errors == Errors(os) && t.histogram == H.CountsOf(Durations(os))
    && t.duration == Sum(os, DURATION) && t.connect == Sum(os, CONNECT) && t.header == Sum(os, HEADER)
    && t.response == Sum(os, RESPONSE) && t.bytesSent as real == Sum(os, SENT) && t.requestBytes as real == Sum(os, RECEIVED)
  }

  lemma DescribeOne(t: Totals, os: seq<Observation>, o: Observation)
    requires Describes(t, os)
    ensures Describes(Plus(t, Single(o)), os + [o])
  {
    assert (os + [o])[..|os|] == os;
    assert Durations(os + [o]) == Durations(os) + [o.duration];
    H.MergeIsConcat(Durations(os), [o.duration]);
  }

  lemma DescribeFirst(o: Observation)
    ensures Describes(Single(o), [o])
  {
    assert [o][..0] == [];
    assert Durations([o]) == [o.duration];
  }

  lemma {:induction false} GroupDescribes(cfg: Config, os: seq<Observation>, clock: nat, k: Key)
    ensures k in Aggregate(cfg, os, clock) <==> Group(cfg, os, clock, k) != []
    ensures k in Aggregate(cfg, os, clock) ==> Describes(Aggregate(cfg, os, clock)[k], Group(cfg, os, clock, k))
  {
    if os != [] {
      var o := os[|os| - 1];
      var before := Group(cfg, os[..|os| - 1], clock, k);
      GroupDescribes(cfg, os[..|os| - 1], clock, k);
      KeyMeans(cfg, o, clock, k);
      if FallsInto(cfg, o, clock, k) {
        if before == [] {
          assert before + [o] == [o];
          DescribeFirst(o);
        } else {
          DescribeOne(Aggregate(cfg, os[..|os| - 1], clock)[k], before, o);
        }
      } else {
        assert before + [] == before;
      }
    }
  }

  // A bucket exists at a minute and its columns exactly when some observation has that
  // verb, route, upstream and status class in that minute, and it states the count, the
  // sums and the histogram of exactly those.
  lemma RowDescribes(cfg: Config, os: seq<Observation>, clock: nat, k: Key)
    ensures k in Aggregate(cfg, os, clock) <==> exists i :: 0 <= i < |os| && FallsInto(cfg, os[i], clock, k)
    ensures k in Aggregate(cfg, os, clock) ==> Describes(Aggregate(cfg, os, clock)[k], Group(cfg, os, clock, k))
  {
    GroupEmpty(cfg, os, clock, k);
    GroupDescribes(cfg, os, clock, k);
  }

  lemma {:induction false} SumDurations(os: seq<Observation>)
    ensures S.Sum(Durations(os)) == Sum(os, DURATION)
  {
    if os != [] {
      SumDurations(os[..|os| - 1]);
      assert Durations(os)[..|os| - 1] == Durations(os[..|os| - 1]);
    }
  }

  // Every bucket is one that summaries can read: filled from the durations of its requests.
  lemma RowFilled(cfg: Config, os: seq<Observation>, clock: nat, k: Key)
    requires k in Aggregate(cfg, os, clock)
    ensures S.FilledFrom(Aggregate(cfg, os, clock)[k], Durations(Group(cfg, os, clock, k)))
  {
    RowDescribes(cfg, os, clock, k);
    SumDurations(Group(cfg, os, clock, k));
  }

  // No request is lost or counted twice by aggregation.
  lemma {:induction false} AggregateTotal(cfg: Config, os: seq<Observation>, clock: nat)
    ensures RequestTotal(Aggregate(cfg, os, clock)) == |os|
  {
    if os != [] {
      var o := os[|os| - 1];
      AggregateTotal(cfg, os[..|os| - 1], clock);
      TotalAdd(Aggregate(cfg, os[..|os| - 1], clock), KeyOf(cfg, o, clock), Single(o));
    }
  }

  method AggregateHTTP(cfg: Config, os: seq<Observation>, clock: nat) returns (rows: Rows)
    ensures rows == Aggregate(cfg, os, clock)
  {
    rows := map[];
    for i := 0 to |os|
      invariant rows == Aggregate(cfg, os[..i], clock)
    {
      assert os[..i + 1][..i] == os[..i];
      var o := os[i];
      var k := KeyOf(cfg, o, clock);
      rows := rows[k := if k in rows then Plus(rows[k], Single(o)) else Single(o)];
    }
    assert os[..|os|] == os;
  }

  // ---------- the ingest key ----------

  function Decimal(n: nat): string {
    if n < 10 then [Digit(n)] else Decimal(n / 10) + [Digit(n % 10)]
  }

  // The text is the number in decimal digits, without leading zeros.
  lemma {:induction false} DecimalMeans(n: nat)
    ensures Number(Decimal(n)) == n && Decimal(n) != "" && (n > 0 ==> Decimal(n)[0] != '0')
    ensures forall i :: 0 <= i < |Decimal(n)| ==> '0' <= Decimal(n)[i] <= '9'
  {
    if n < 10 {
      assert [Digit(n)][..0] == [];
    } else {
      DecimalMeans(n / 10);
      assert Decimal(n)[..|Decimal(n)| - 1] == Decimal(n / 10);
    }
  }

  lemma {:induction false} DecimalInjective(a: nat, b: nat)
    ensures Decimal(a) == Decimal(b) ==> a == b
  {
    var x, y := Decimal(a), Decimal(b);
    assert x[|x| - 1] == Digit(a % 10) && y[|y| - 1] == Digit(b % 10);
    assert a >= 10 ==> x[..|x| - 1] == Decimal(a / 10);
    assert b >= 10 ==> y[..|y| - 1] == Decimal(b / 10);
    if a >= 10 && b >= 10 { DecimalInjective(a / 10, b / 10); }
  }

  function IngestKey(cfg: Config, end: nat): string { cfg.identity + ":" + Decimal(end) }

  // Different end offsets never share a marker.
  lemma KeysDiffer(cfg: Config, a: nat, b: nat)
    ensures IngestKey(cfg, a) == IngestKey(cfg, b) ==> a == b
  {
    var head := cfg.identity + ":";
    assert IngestKey(cfg, a)[|head|..] == Decimal(a) && IngestKey(cfg, b)[|head|..] == Decimal(b);
    DecimalInjective(a, b);
  }

  // ---------- writing one batch ----------

  // A bucket of the parser's observations is valid as soon as the collector's own fields
  // are: no accepted line is ever refused by the store.
  lemma BucketsValid(cfg: Config, os: seq<Observation>, clock: nat, k: Key, end: nat)
    requires k in Aggregate(cfg, os, clock) && clock * MINUTE_NANOS != ZERO_TIME
    ensures ValidBucket(BucketFor(Aggregate(cfg, os, clock), k, IngestKey(cfg, end))) <==>
              cfg.service != "" && cfg.environment != "" && |IngestKey(cfg, end)| <= 256
  {
    RowDescribes(cfg, os, clock, k);
    var i :| 0 <= i < |os| && FallsInto(cfg, os[i], clock, k);
    UndatedMinute(os[i]);
    assert k.0 * MINUTE_NANOS != ZERO_TIME;
    assert 1 <= k.1.statusClass <= 5;
  }

  function BucketFor(rows: Rows, k: Key, ingestKey: string): Bucket
    requires k in rows
  {
    Bucket(k.0 * MINUTE_NANOS, k.1, rows[k], ingestKey)
  }

  // The rows whose bucket is already stored under the ingest key.
  ghost function Landed(markers: set<Marker>, rows: Rows, ingestKey: string): Rows {
    map k | k in rows && Marker(ingestKey, k.0, k.1) in markers :: rows[k]
  }

  // Map iteration yields the buckets in any order.
  ghost predicate Enumerates(order: seq<Key>, rows: Rows) { forall k :: k in order <==> k in rows }

  // Upserts the first n buckets of the order.
  function Written(s: Store, rows: Rows, order: seq<Key>, n: nat, ingestKey: string): Store
    requires n <= |order| && forall k :: k in order ==> k in rows
  {
    if n == 0 then s else Upserted(Written(s, rows, order, n - 1, ingestKey), BucketFor(rows, order[n - 1], ingestKey))
  }

  // One write moves its requests from outstanding to stored, or nothing on a retry.
  lemma WriteOne(s: Store, rows: Rows, k: Key, ingestKey: string)
    requires k in rows && ValidBucket(BucketFor(rows, k, ingestKey))
    ensures var s' := Upserted(s, BucketFor(rows, k, ingestKey));
            && RequestTotal(s'.minutes) - RequestTotal(Landed(s'.markers, rows, ingestKey))
               == RequestTotal(s.minutes) - RequestTotal(Landed(s.markers, rows, ingestKey))
            && s'.markers == s.markers + {Marker(ingestKey, k.0, k.1)}
  {
    var b := BucketFor(rows, k, ingestKey);
    assert MarkerOf(b) == Marker(ingestKey, k.0, k.1) && MinuteKey(b) == k;
    var s' := Upserted(s, b);
    UpsertTotals(s, b);
    var before, after := Landed(s.markers, rows, ingestKey), Landed(s'.markers, rows, ingestKey);
    if MarkerOf(b) in s.markers {
      assert s.markers + {MarkerOf(b)} == s.markers;
    } else {
      assert after == AddRow(before, k, rows[k]);
      TotalAdd(before, k, rows[k]);
    }
  }

  ghost function MarkersFor(order: seq<Key>, n: nat, ingestKey: string): set<Marker>
    requires n <= |order|
  {
    set i | 0 <= i < n :: Marker(ingestKey, order[i].0, order[i].1)
  }

  lemma {:induction false} WrittenMarkers(s: Store, rows: Rows, order: seq<Key>, n: nat, ingestKey: string)
    requires n <= |order| && (forall k :: k in order ==> k in rows)
    requires forall i :: 0 <= i < n ==> ValidBucket(BucketFor(rows, order[i], ingestKey))
    ensures Written(s, rows, order, n, ingestKey).markers == s.markers + MarkersFor(order, n, ingestKey)
  {
    if n > 0 {
      WrittenMarkers(s, rows, order, n - 1, ingestKey);
      WriteOne(Written(s, rows, order, n - 1, ingestKey), rows, order[n - 1], ingestKey);
      assert MarkersFor(order, n, ingestKey) == MarkersFor(order, n - 1, ingestKey) + {Marker(ingestKey, order[n - 1].0, order[n - 1].1)};
    }
  }

  // Any number of writes moves requests from outstanding to stored, none twice.
  lemma {:induction false} WriteMany(s: Store, rows: Rows, order: seq<Key>, n: nat, ingestKey: string)
    requires n <= |order| && (forall k :: k in order ==> k in rows)
    requires forall i :: 0 <= i < n ==> ValidBucket(BucketFor(rows, order[i], ingestKey))
    ensures var s' := Written(s, rows, order, n, ingestKey);
            RequestTotal(s'.minutes) - RequestTotal(Landed(s'.markers, rows, ingestKey))
              == RequestTotal(s.minutes) - RequestTotal(Landed(s.markers, rows, ingestKey))
  {
    if n > 0 {
      WriteMany(s, rows, order, n - 1, ingestKey);
      WriteOne(Written(s, rows, order, n - 1, ingestKey), rows, order[n - 1], ingestKey);
    }
  }

  // Once every bucket is written, every row has landed.
  lemma AllLanded(s: Store, rows: Rows, order: seq<Key>, ingestKey: string)
    requires Enumerates(order, rows)
    requires forall i :: 0 <= i < |order| ==> ValidBucket(BucketFor(rows, order[i], ingestKey))
    ensures Landed(Written(s, rows, order, |order|, ingestKey).markers, rows, ingestKey) == rows
  {
    WrittenMarkers(s, rows, order, |order|, ingestKey);
    forall k | k in rows
      ensures Marker(ingestKey, k.0, k.1) in Written(s, rows, order, |order|, ingestKey).markers
    {
      var i :| 0 <= i < |order| && order[i] == k;
    }
  }

  // ---------- runs ----------

  // `tried` and `clock` are the end and the minute of the last attempt; `tried` equals
  // `acked` once a read is acknowledged.
  datatype World = World(file: string, acked: nat, tried: nat, clock: nat, store: Store)

  const START := World("", 0, 0, 0, BLANK)

  // `written` buckets succeed before one fails; `saved` says whether the cursor is stored.
  datatype Step =
    | Append(more: string)
    | Collect(clock: nat, order: seq<Key>, written: nat, saved: bool)

  function End(w: World): nat
    requires w.acked <= |w.file|
  {
    ReadEnd(w.file, w.acked, MAX_RECORDS)
  }

  // The observations of a read from the acknowledged offset to `end`.
  function ReadOf(cfg: Config, w: World, end: nat): seq<Observation>
    requires w.acked <= end <= |w.file|
  {
    GoodGrows(w.file, w.acked, end, cfg.parse);
    Good(w.file, end, cfg.parse)[|Good(w.file, w.acked, cfg.parse)|..]
  }

  function Batch(cfg: Config, w: World, end: nat, clock: nat): Rows
    requires w.acked <= end <= |w.file|
  {
    Aggregate(cfg, ReadOf(cfg, w, end), clock)
  }

  ghost predicate Legal(cfg: Config, w: World, step: Step) {
    && w.acked <= |w.file|
    && (step.Collect? ==>
          var rows := Batch(cfg, w, End(w), step.clock);
          && Enumerates(step.order, rows) && step.written <= |step.order|
          && forall i :: 0 <= i < step.written ==> ValidBucket(BucketFor(rows, step.order[i], IngestKey(cfg, End(w)))))
  }

  ghost function Advance(cfg: Config, w: World, step: Step): World
    requires Legal(cfg, w, step)
  {
    match step
    case Append(more) => w.(file := w.file + more)
    case Collect(clock, order, written, saved) =>
      var rows := Batch(cfg, w, End(w), clock);
      World(w.file, if written == |order| && saved then End(w) else w.acked, End(w), clock,
            Written(w.store, rows, order, written, IngestKey(cfg, End(w))))
  }

  // The requests of a read that an attempt at the given end and minute would find stored.
  ghost function Found(cfg: Config, w: World, end: nat, clock: nat): nat
    requires w.acked <= end <= |w.file|
  {
    RequestTotal(Landed(w.store.markers, Batch(cfg, w, end, clock), IngestKey(cfg, end)))
  }

  // The requests of the unacknowledged read that are already stored.
  ghost function Pending(cfg: Config, w: World): nat
    requires w.acked <= w.tried <= |w.file|
  {
    Found(cfg, w, w.tried, w.clock)
  }

  // Offsets sit on line boundaries and every marker ends at or before the last read.
  ghost predicate Placed(cfg: Config, w: World) {
    && Boundary(w.file, w.acked) && Boundary(w.file, w.tried) && w.acked <= w.tried <= End(w)
    && forall m :: m in w.store.markers ==> exists e: nat :: e <= w.tried && m.ingestKey == IngestKey(cfg, e)
  }

  // Stored requests beyond the acknowledged and the pending ones; negative when some are
  // missing.
  ghost function Excess(cfg: Config, w: World): int
    requires w.acked <= w.tried <= |w.file|
  {
    RequestTotal(w.store.minutes) - |Good(w.file, w.acked, cfg.parse)| - Pending(cfg, w)
  }

  lemma BatchTotal(cfg: Config, w: World, end: nat, clock: nat)
    requires w.acked <= end <= |w.file|
    ensures RequestTotal(Batch(cfg, w, end, clock)) == |Good(w.file, end, cfg.parse)| - |Good(w.file, w.acked, cfg.parse)|
    ensures end == w.acked ==> Batch(cfg, w, end, clock) == map[]
  {
    AggregateTotal(cfg, ReadOf(cfg, w, end), clock);
  }

  // An acknowledged read leaves nothing pending.
  lemma NothingPending(cfg: Config, w: World)
    requires w.acked == w.tried <= |w.file|
    ensures Pending(cfg, w) == 0
  {
    BatchTotal(cfg, w, w.tried, w.clock);
    assert Landed(w.store.markers, map[], IngestKey(cfg, w.tried)) == map[];
  }

  // Nothing has landed yet under an end offset beyond the last read.
  lemma FreshEnd(cfg: Config, w: World, end: nat, clock: nat)
    requires Placed(cfg, w) && w.tried < end <= |w.file|
    ensures Found(cfg, w, end, clock) == 0
  {
    var rows := Batch(cfg, w, end, clock);
    forall k | k in rows
      ensures Marker(IngestKey(cfg, end), k.0, k.1) !in w.store.markers
    {
      if Marker(IngestKey(cfg, end), k.0, k.1) in w.store.markers {
        var e: nat :| e <= w.tried && IngestKey(cfg, end) == IngestKey(cfg, e);
        KeysDiffer(cfg, e, end);
      }
    }
    assert Landed(w.store.markers, rows, IngestKey(cfg, end)) == map[];
  }

  lemma BoundaryKeeps(file: string, more: string, n: nat)
    requires Boundary(file, n)
    ensures Boundary(file + more, n)
  {
    if n > 0 { assert (file + more)[n - 1] == file[n - 1]; }
  }

  lemma AppendPlaced(cfg: Config, w: World, more: string)
    requires Placed(cfg, w)
    ensures Placed(cfg, w.(file := w.file + more))
  {
    BoundaryKeeps(w.file, more, w.acked);
    BoundaryKeeps(w.file, more, w.tried);
    ReadEndGrows(w.file, more, w.acked, MAX_RECORDS);
  }

  lemma AppendExcess(cfg: Config, w: World, more: string)
    requires Placed(cfg, w)
    ensures Excess(cfg, w.(file := w.file + more)) == Excess(cfg, w)
  {
    AppendKeeps(w.file, more, w.acked, cfg.parse);
    AppendKeeps(w.file, more, w.tried, cfg.parse);
  }

  lemma CollectPlaced(cfg: Config, w: World, step: Step)
    requires Placed(cfg, w) && Legal(cfg, w, step) && step.Collect?
    ensures Placed(cfg, Advance(cfg, w, step))
  {
    var end := End(w);
    ReadEndBoundary(w.file, w.acked, MAX_RECORDS);
    WrittenMarkers(w.store, Batch(cfg, w, end, step.clock), step.order, step.written, IngestKey(cfg, end));
    var w' := Advance(cfg, w, step);
    forall m | m in w'.store.markers
      ensures exists e: nat :: e <= end && m.ingestKey == IngestKey(cfg, e)
    {
      if m in w.store.markers {
        var e: nat :| e <= w.tried && m.ingestKey == IngestKey(cfg, e);
      }
    }
  }

  // Acknowledged and pending requests after an attempt, against those before it.
  lemma Attempt(cfg: Config, w: World, step: Step)
    requires Placed(cfg, w) && Legal(cfg, w, step) && step.Collect?
    ensures var w', rows := Advance(cfg, w, step), Batch(cfg, w, End(w), step.clock);
            |Good(w'.file, w'.acked, cfg.parse)| + Pending(cfg, w')
              == |Good(w.file, w.acked, cfg.parse)| + RequestTotal(Landed(w'.store.markers, rows, IngestKey(cfg, End(w))))
  {
    var w', rows := Advance(cfg, w, step), Batch(cfg, w, End(w), step.clock);
    BatchTotal(cfg, w, End(w), step.clock);
    if w'.acked == End(w) {
      NothingPending(cfg, w');
      if step.written == |step.order| && step.saved {
        AllLanded(w.store, rows, step.order, IngestKey(cfg, End(w)));
      } else {
        assert rows == map[];
        assert Landed(w'.store.markers, map[], IngestKey(cfg, End(w))) == map[];
      }
    }
  }

  // An attempt shifts the excess by what the last attempt had stored, less what this one
  // recognises of it.
  lemma CollectExcess(cfg: Config, w: World, step: Step)
    requires Placed(cfg, w) && Legal(cfg, w, step) && step.Collect?
    ensures Excess(cfg, Advance(cfg, w, step)) == Excess(cfg, w) + Pending(cfg, w) - Found(cfg, w, End(w), step.clock)
  {
    Attempt(cfg, w, step);
    WriteMany(w.store, Batch(cfg, w, End(w), step.clock), step.order, step.written, IngestKey(cfg, End(w)));
  }

  ghost predicate Run(cfg: Config, steps: seq<Step>, ws: seq<World>) {
    && |ws| == |steps| + 1 && ws[0] == START
    && forall i :: 0 <= i < |steps| ==> Legal(cfg, ws[i], steps[i]) && ws[i + 1] == Advance(cfg, ws[i], steps[i])
  }

  // The attempt does not recognise exactly what the last one had stored.
  ghost predicate Strays(cfg: Config, w: World, step: Step) {
    && w.acked <= w.tried <= |w.file| && w.acked <= End(w) <= |w.file|
    && step.Collect? && Found(cfg, w, End(w), step.clock) != Pending(cfg, w)
  }

  lemma StepPlaced(cfg: Config, w: World, step: Step)
    requires Placed(cfg, w) && Legal(cfg, w, step)
    ensures Placed(cfg, Advance(cfg, w, step))
  {
    match step
    case Append(more) => AppendPlaced(cfg, w, more);
    case Collect(_, _, _, _) => CollectPlaced(cfg, w, step);
  }

  lemma StepExcess(cfg: Config, w: World, step: Step)
    requires Placed(cfg, w) && Legal(cfg, w, step)
    ensures Excess(cfg, Advance(cfg, w, step)) == Excess(cfg, w) <==> !Strays(cfg, w, step)
  {
    match step
    case Append(more) => AppendExcess(cfg, w, more);
    case Collect(_, _, _, _) => CollectExcess(cfg, w, step);
  }

  // Through every run the acknowledged offset is 0 or just after a newline.
  lemma {:induction false} RunPlaced(cfg: Config, steps: seq<Step>, ws: seq<World>, n: nat)
    requires Run(cfg, steps, ws) && n <= |steps|
    ensures Placed(cfg, ws[n])
  {
    if n > 0 {
      RunPlaced(cfg, steps, ws, n - 1);
      StepPlaced(cfg, ws[n - 1], steps[n - 1]);
    }
  }

  ghost predicate Exact(cfg: Config, w: World) { Placed(cfg, w) && Excess(cfg, w) == 0 }

  ghost predicate AlwaysExact(cfg: Config, ws: seq<World>, n: nat)
    requires n < |ws|
  {
    forall m :: 0 <= m <= n ==> Exact(cfg, ws[m])
  }

  ghost predicate NeverStrays(cfg: Config, steps: seq<Step>, ws: seq<World>, n: nat)
    requires n <= |steps| < |ws|
  {
    forall i :: 0 <= i < n ==> !Strays(cfg, ws[i], steps[i])
  }

  // Through every run, however appends and the record cap split the reads and whatever the
  // records hold: the stored total is at every moment the number of well-formed
  // acknowledged lines plus the stored part of a pending read, exactly when no attempt
  // strayed from what the last one had stored.
  lemma {:induction false} TotalsExact(cfg: Config, steps: seq<Step>, ws: seq<World>, n: nat)
    requires Run(cfg, steps, ws) && n <= |steps|
    ensures AlwaysExact(cfg, ws, n) <==> NeverStrays(cfg, steps, ws, n)
  {
    if n == 0 {
      NothingPending(cfg, ws[0]);
    } else {
      TotalsExact(cfg, steps, ws, n - 1);
      ExactSnoc(cfg, ws, n);
      StraysSnoc(cfg, steps, ws, n);
      if Exact(cfg, ws[n - 1]) { ExactStep(cfg, steps, ws, n - 1); }
    }
  }

  lemma ExactSnoc(cfg: Config, ws: seq<World>, n: nat)
    requires 0 < n < |ws|
    ensures AlwaysExact(cfg, ws, n) <==> AlwaysExact(cfg, ws, n - 1) && Exact(cfg, ws[n])
    ensures AlwaysExact(cfg, ws, n - 1) ==> Exact(cfg, ws[n - 1])
  {}

  lemma StraysSnoc(cfg: Config, steps: seq<Step>, ws: seq<World>, n: nat)
    requires 0 < n <= |steps| < |ws|
    ensures NeverStrays(cfg, steps, ws, n) <==> NeverStrays(cfg, steps, ws, n - 1) && !Strays(cfg, ws[n - 1], steps[n - 1])
  {}

  lemma ExactStep(cfg: Config, steps: seq<Step>, ws: seq<World>, i: nat)
    requires Run(cfg, steps, ws) && i < |steps| && Exact(cfg, ws[i])
    ensures Exact(cfg, ws[i + 1]) <==> !Strays(cfg, ws[i], steps[i])
  {
    StepPlaced(cfg, ws[i], steps[i]);
    StepExcess(cfg, ws[i], steps[i]);
  }

  // ---------- when attempts stray ----------

  ghost predicate AllDated(os: seq<Observation>) { forall i :: 0 <= i < |os| ==> !Undated(os[i]) }

  lemma {:induction false} ClockIrrelevant(cfg: Config, os: seq<Observation>, a: nat, b: nat)
    requires a == b || AllDated(os)
    ensures Aggregate(cfg, os, a) == Aggregate(cfg, os, b)
  {
    if a != b && os != [] { ClockIrrelevant(cfg, os[..|os| - 1], a, b); }
  }

  // A partly stored read is retried at another end, because the file grew.
  ghost predicate Moves(cfg: Config, w: World, step: Step) {
    && w.acked <= w.tried <= |w.file|
    && step.Collect? && End(w) != w.tried && Pending(cfg, w) > 0
  }

  // A retry in the same minute, or of dated records only, strays exactly when the file grew
  // into its read after something had been stored.
  lemma StraysMeans(cfg: Config, w: World, step: Step)
    requires Placed(cfg, w) && step.Collect? && (step.clock == w.clock || AllDated(ReadOf(cfg, w, w.tried)))
    ensures Strays(cfg, w, step) <==> Moves(cfg, w, step)
  {
    if End(w) == w.tried {
      ClockIrrelevant(cfg, ReadOf(cfg, w, w.tried), step.clock, w.clock);
    } else {
      FreshEnd(cfg, w, End(w), step.clock);
    }
  }

  // While every record read so far is dated, requests are only ever stored twice, and
  // what is stored twice stays.
  lemma {:induction false} ExcessGrows(cfg: Config, steps: seq<Step>, ws: seq<World>, n: nat)
    requires Run(cfg, steps, ws) && n <= |steps| && AllDated(Good(ws[n].file, |ws[n].file|, cfg.parse))
    ensures Placed(cfg, ws[n]) && Excess(cfg, ws[n]) >= 0
    ensures Excess(cfg, ws[n]) == 0 <==>
              forall i :: 0 <= i < n ==> !Moves(cfg, ws[i], steps[i])
  {
    RunPlaced(cfg, steps, ws, n);
    if n == 0 {
      NothingPending(cfg, ws[0]);
    } else {
      RunPlaced(cfg, steps, ws, n - 1);
      DatedBefore(cfg, steps, ws, n);
      ExcessGrows(cfg, steps, ws, n - 1);
      DatedStep(cfg, ws[n - 1], steps[n - 1]);
    }
  }

  lemma DatedStep(cfg: Config, w: World, step: Step)
    requires Placed(cfg, w) && Legal(cfg, w, step) && AllDated(Good(w.file, |w.file|, cfg.parse))
    ensures Excess(cfg, Advance(cfg, w, step)) ==
              Excess(cfg, w) + if Moves(cfg, w, step) then Pending(cfg, w) else 0
  {
    match step
    case Append(more) => AppendExcess(cfg, w, more);
    case Collect(clock, _, _, _) =>
      CollectExcess(cfg, w, step);
      if End(w) == w.tried { RetryFinds(cfg, w, clock); } else { FreshEnd(cfg, w, End(w), clock); }
  }

  lemma RetryFinds(cfg: Config, w: World, clock: nat)
    requires w.acked <= w.tried <= |w.file| && AllDated(Good(w.file, |w.file|, cfg.parse))
    ensures Found(cfg, w, w.tried, clock) == Pending(cfg, w)
  {
    GoodGrows(w.file, w.acked, w.tried, cfg.parse);
    GoodGrows(w.file, w.tried, |w.file|, cfg.parse);
    DatedPrefix(Good(w.file, |w.file|, cfg.parse), |Good(w.file, w.acked, cfg.parse)|, |Good(w.file, w.tried, cfg.parse)|);
    ClockIrrelevant(cfg, ReadOf(cfg, w, w.tried), clock, w.clock);
  }

  lemma DatedPrefix(os: seq<Observation>, a: nat, b: nat)
    requires AllDated(os) && a <= b <= |os|
    ensures AllDated(os[..b]) && AllDated(os[..b][a..])
  {}

  lemma DatedBefore(cfg: Config, steps: seq<Step>, ws: seq<World>, n: nat)
    requires Run(cfg, steps, ws) && 0 < n <= |steps| && AllDated(Good(ws[n].file, |ws[n].file|, cfg.parse))
    ensures AllDated(Good(ws[n - 1].file, |ws[n - 1].file|, cfg.parse))
  {
    var file := ws[n - 1].file;
    if steps[n - 1].Append? {
      AppendKeeps(file, steps[n - 1].more, |file|, cfg.parse);
      GoodGrows(file + steps[n - 1].more, |file|, |file + steps[n - 1].more|, cfg.parse);
    }
  }

  // When a read of dated records is acknowledged, the buckets hold exactly the well-formed
  // complete lines before the offset, unless a partly stored read was retried at another
  // end.
  lemma ExactWhenAcknowledged(cfg: Config, steps: seq<Step>, ws: seq<World>)
    requires Run(cfg, steps, ws) && ws[|steps|].acked == ws[|steps|].tried
    requires AllDated(Good(ws[|steps|].file, |ws[|steps|].file|, cfg.parse))
    ensures var w := ws[|steps|];
            && Placed(cfg, w)
            && (RequestTotal(w.store.minutes) == |Good(w.file, w.acked, cfg.parse)| <==>
                  forall i :: 0 <= i < |steps| ==> !Moves(cfg, ws[i], steps[i]))
  {
    ExcessGrows(cfg, steps, ws, |steps|);
    NothingPending(cfg, ws[|steps|]);
  }

  // A stored record with the zero time is stored again by a retry exactly when the retry
  // runs in another minute.
  lemma ZeroTimeStoredTwice(cfg: Config, s: Store, o: Observation, first: nat, second: nat, ingestKey: string)
    requires Undated(o) && forall m :: m in s.markers ==> m.ingestKey != ingestKey
    requires ValidBucket(BucketFor(Aggregate(cfg, [o], first), KeyOf(cfg, o, first), ingestKey))
    requires ValidBucket(BucketFor(Aggregate(cfg, [o], second), KeyOf(cfg, o, second), ingestKey))
    ensures var once := Upserted(s, BucketFor(Aggregate(cfg, [o], first), KeyOf(cfg, o, first), ingestKey));
            var twice := Upserted(once, BucketFor(Aggregate(cfg, [o], second), KeyOf(cfg, o, second), ingestKey));
            RequestTotal(twice.minutes) == RequestTotal(s.minutes) + if first == second then 1 else 2
  {
    var once := Upserted(s, BucketFor(Aggregate(cfg, [o], first), KeyOf(cfg, o, first), ingestKey));
    UpsertTotals(s, BucketFor(Aggregate(cfg, [o], first), KeyOf(cfg, o, first), ingestKey));
    UpsertTotals(once, BucketFor(Aggregate(cfg, [o], second), KeyOf(cfg, o, second), ingestKey));
  }

  // ---------- the collector ----------

  // Drop counts are capped and never fall behind the stored ones.
  function MergedDrops(dropped: nat, persisted: nat): nat {
    var bounded := if dropped > MAX_DROPS then MAX_DROPS else dropped;
    if persisted > bounded then persisted else bounded
  }

  // The larger of the stored count and the capped new one.
  lemma DropsNeverFall(dropped: nat, persisted: nat)
    ensures var m, capped := MergedDrops(dropped, persisted), if dropped <= 1_000_000_000 then dropped else 1_000_000_000;
            m >= persisted && m >= capped && (m == persisted || m == capped)
  {}

  class HTTPCollector {
    const cfg: Config
    const tailer: Tailer
    const store: PerformanceStore

    constructor (cfg: Config, tailer: Tailer, store: PerformanceStore)
      ensures this.cfg == cfg && this.tailer == tailer && this.store == store
    {
      this.cfg, this.tailer, this.store := cfg, tailer, store;
    }

    // The cursor a read starts from, and the world it sees.
    ghost function Start(file: string): Cursor
      reads tailer
    {
      Rebased(tailer.cursor, cfg.identity, |file|)
    }

    ghost function View(file: string): World
      reads tailer, store
    {
      World(file, Start(file).offset, Start(file).offset, 0, store.View())
    }

    // Upserts bucket after bucket until one fails.
    method WriteBuckets(rows: Rows, order: seq<Key>, written: nat, ingestKey: string) returns (ok: bool)
      requires (forall k :: k in order ==> k in rows) && written <= |order|
      requires forall i :: 0 <= i < written ==> ValidBucket(BucketFor(rows, order[i], ingestKey))
      modifies store
      ensures ok <==> written == |order|
      ensures store.View() == Written(old(store.View()), rows, order, written, ingestKey)
    {
      for i := 0 to |order|
        invariant i <= written && store.View() == Written(old(store.View()), rows, order, i, ingestKey)
      {
        ok := store.UpsertHTTP(BucketFor(rows, order[i], ingestKey), i < written);
        if !ok { return; }
      }
      ok := true;
    }

    // One collection: the cursor moves only after every bucket and the cursor are stored.
    method CollectHTTP(file: string, clock: nat, order: seq<Key>, written: nat, saved: bool, persisted: nat)
      requires Boundary(file, Start(file).offset)
      requires Legal(cfg, View(file), Collect(clock, order, written, saved))
      modifies tailer, store
      ensures store.View() == Advance(cfg, old(View(file)), Collect(clock, order, written, saved)).store
      ensures if written == |order| && saved then
                exists observations, drops: nat ::
                  && Consumed(file, old(Start(file)).offset, tailer.cursor.offset, observations, drops, cfg.parse)
                  && tailer.cursor == Cursor(cfg.identity, Advance(cfg, old(View(file)), Collect(clock, order, written, saved)).acked,
                                             MergedDrops(old(Start(file)).dropped + drops, persisted))
              else tailer.cursor == old(tailer.cursor)
    {
      var observations, next := tailer.Read(cfg.identity, file, cfg.parse);
      assert observations == ReadOf(cfg, View(file), next.offset);
      var rows := AggregateHTTP(cfg, observations, clock);
      var ingestKey := next.identity + ":" + Decimal(next.offset);
      var ok := WriteBuckets(rows, order, written, ingestKey);
      if !ok { return; }
      next := next.(dropped := MergedDrops(next.dropped, persisted));
      if !saved { return; }
      tailer.Acknowledge(next);
    }
  }
}

/**
 The log collector over all its containers: tail each one, sort the batch, store it in
 one transaction, then advance the cursors in memory and on disk.
 */
module LogCollector {
  import opened Common
  import opened LogCursor
  import opened LogStreams
  import opened LogTail

  datatype Row = Row(container: string, line: Line)

  // One daemon answer; none when the call failed.
  datatype Poll = Poll(container: string, response: Option<seq<Line>>)

  datatype State = State(table: seq<Row>, memory: map<string, Cursor>, durable: map<string, Cursor>)

  // ---------- the stable sort of a batch ----------

  function InsertRow(s: seq<Row>, x: Row): seq<Row> {
    if s == [] then [x]
    else if s[|s| - 1].line.ts <= x.line.ts then s + [x]
    else InsertRow(s[..|s| - 1], x) + [s[|s| - 1]]
  }

  function StableSort(b: seq<Row>): seq<Row> {
    if b == [] then [] else InsertRow(StableSort(b[..|b| - 1]), b[|b| - 1])
  }

  // The lines of one container, in row order.
  function Lines(rows: seq<Row>, id: string): seq<Line> {
    if rows == [] then []
    else
      var last := rows[|rows| - 1];
      Lines(rows[..|rows| - 1], id) + if last.container == id then [last.line] else []
  }

  lemma {:induction false} LinesConcat(a: seq<Row>, b: seq<Row>, id: string)
    ensures Lines(a + b, id) == Lines(a, id) + Lines(b, id)
  {
    if b == [] {
      assert a + b == a;
    } else {
      assert (a + b)[..|a + b| - 1] == a + b[..|b| - 1];
      LinesConcat(a, b[..|b| - 1], id);
    }
  }

  lemma LinesAppend(s: seq<Row>, x: Row, id: string)
    ensures Lines(s + [x], id) == Lines(s, id) + if x.container == id then [x.line] else []
  {
    assert (s + [x])[..|s|] == s;
  }

  ghost predicate AtMost(rows: seq<Row>, t: nat) { forall i :: 0 <= i < |rows| ==> rows[i].line.ts <= t }

  ghost predicate SortedRows(rows: seq<Row>) {
    rows != [] ==> AtMost(rows, rows[|rows| - 1].line.ts) && SortedRows(rows[..|rows| - 1])
  }

  lemma {:induction false} InsertAtMost(s: seq<Row>, x: Row, t: nat)
    requires AtMost(s, t) && x.line.ts <= t
    ensures AtMost(InsertRow(s, x), t)
  {
    if s != [] && s[|s| - 1].line.ts > x.line.ts { InsertAtMost(s[..|s| - 1], x, t); }
  }

  lemma {:induction false} InsertSorted(s: seq<Row>, x: Row)
    requires SortedRows(s)
    ensures SortedRows(InsertRow(s, x))
  {
    if s == [] {
      assert [x][..0] == [];
    } else {
      var n := |s| - 1;
      if s[n].line.ts <= x.line.ts {
        assert (s + [x])[..|s|] == s;
      } else {
        InsertSorted(s[..n], x);
        InsertAtMost(s[..n], x, s[n].line.ts);
        var r := InsertRow(s[..n], x);
        assert (r + [s[n]])[..|r|] == r;
      }
    }
  }

  lemma {:induction false} SortSorted(b: seq<Row>)
    ensures SortedRows(StableSort(b))
  {
    if b != [] {
      SortSorted(b[..|b| - 1]);
      InsertSorted(StableSort(b[..|b| - 1]), b[|b| - 1]);
    }
  }

  // Inserting a row that is not older than its container's lines appends it there.
  lemma {:induction false} InsertKeepsLines(s: seq<Row>, x: Row, id: string)
    requires SortedRows(s)
    requires x.container == id && Lines(s, id) != [] ==> Lines(s, id)[|Lines(s, id)| - 1].ts <= x.line.ts
    ensures Lines(InsertRow(s, x), id) == Lines(s, id) + if x.container == id then [x.line] else []
  {
    if s == [] {
      LinesAppend([], x, id);
      assert [] + [x] == [x];
    } else {
      var n := |s| - 1;
      assert s == s[..n] + [s[n]];
      LinesAppend(s[..n], s[n], id);
      if s[n].line.ts <= x.line.ts {
        LinesAppend(s, x, id);
      } else {
        InsertKeepsLines(s[..n], x, id);
        LinesAppend(InsertRow(s[..n], x), s[n], id);
      }
    }
  }

  // The stable sort keeps each container's lines in order when they were in order.
  lemma {:induction false} SortKeepsLines(b: seq<Row>, id: string)
    requires Sorted(Lines(b, id))
    ensures Lines(StableSort(b), id) == Lines(b, id)
  {
    if b != [] {
      var init, x := b[..|b| - 1], b[|b| - 1];
      assert b == init + [x];
      LinesAppend(init, x, id);
      assert Lines(init, id) <= Lines(b, id);
      SortKeepsLines(init, id);
      SortSorted(init);
      if x.container == id && Lines(init, id) != [] {
        var m := |Lines(init, id)|;
        assert Lines(b, id)[m - 1].ts <= Lines(b, id)[m].ts;
      }
      InsertKeepsLines(StableSort(init), x, id);
    }
  }

  // Sorting loses and repeats nothing.
  lemma {:induction false} InsertCounts(s: seq<Row>, x: Row, id: string, t: nat)
    ensures |Lines(InsertRow(s, x), id)| == |Lines(s, id)| + if x.container == id then 1 else 0
    ensures CountAt(Lines(InsertRow(s, x), id), t) == CountAt(Lines(s, id), t) + if x.container == id && x.line.ts == t then 1 else 0
  {
    if s == [] {
      LinesAppend([], x, id);
      LineCounts([], x, id, t);
      assert [] + [x] == [x];
    } else {
      var init, last := s[..|s| - 1], s[|s| - 1];
      assert s == init + [last];
      LineCounts(init, last, id, t);
      if last.line.ts <= x.line.ts {
        LineCounts(s, x, id, t);
      } else {
        InsertCounts(init, x, id, t);
        LineCounts(InsertRow(init, x), last, id, t);
      }
    }
  }

  lemma LineCounts(s: seq<Row>, x: Row, id: string, t: nat)
    ensures |Lines(s + [x], id)| == |Lines(s, id)| + if x.container == id then 1 else 0
    ensures CountAt(Lines(s + [x], id), t) == CountAt(Lines(s, id), t) + if x.container == id && x.line.ts == t then 1 else 0
  {
    LinesAppend(s, x, id);
    if x.container == id {
      CountConcat(Lines(s, id), [x.line], t);
      CountOne(x.line, t);
    } else {
      assert Lines(s, id) + [] == Lines(s, id);
    }
  }

  lemma {:induction false} SortCounts(b: seq<Row>, id: string, t: nat)
    ensures |Lines(StableSort(b), id)| == |Lines(b, id)|
    ensures CountAt(Lines(StableSort(b), id), t) == CountAt(Lines(b, id), t)
  {
    if b != [] {
      var init, x := b[..|b| - 1], b[|b| - 1];
      SortCounts(init, id, t);
      SortCountsNext(init, x, id, t);
      assert b == init + [x];
    }
  }

  lemma SortCountsNext(b: seq<Row>, x: Row, id: string, t: nat)
    requires |Lines(StableSort(b), id)| == |Lines(b, id)| && CountAt(Lines(StableSort(b), id), t) == CountAt(Lines(b, id), t)
    ensures |Lines(StableSort(b + [x]), id)| == |Lines(b + [x], id)|
    ensures CountAt(Lines(StableSort(b + [x]), id), t) == CountAt(Lines(b + [x], id), t)
  {
    InsertCounts(StableSort(b), x, id, t);
    LineCounts(b, x, id, t);
    assert (b + [x])[..|b|] == b;
  }

  // ---------- one collection cycle ----------

  function Durable(s: State, id: string): Cursor { if id in s.durable then s.durable[id] else ZERO }

  // loadLogCursor: memory first, then the persisted cursor.
  function Loaded(s: State, id: string): Cursor { if id in s.memory then s.memory[id] else Durable(s, id) }

  function Capped(lines: seq<Line>): seq<Line> {
    if |lines| <= MAX_LINES_PER_POLL then lines else lines[..MAX_LINES_PER_POLL]
  }

  function Wrap(id: string, lines: seq<Line>): (rows: seq<Row>)
    ensures |rows| == |lines|
  {
    seq(|lines|, i requires 0 <= i < |lines| => Row(id, lines[i]))
  }

  function TailRows(s: State, p: Poll): seq<Row> {
    if p.response.None? then [] else Wrap(p.container, Scan(Loaded(s, p.container), Capped(p.response.value)).1)
  }

  function TailCursor(s: State, p: Poll): Cursor {
    if p.response.None? then Loaded(s, p.container)
    else Advanced(Scan(Loaded(s, p.container), Capped(p.response.value)).0)
  }

  function Batch(s: State, polls: seq<Poll>): seq<Row> {
    if polls == [] then [] else Batch(s, polls[..|polls| - 1]) + TailRows(s, polls[|polls| - 1])
  }

  function Pending(s: State, polls: seq<Poll>): map<string, Cursor> {
    if polls == [] then map[]
    else Pending(s, polls[..|polls| - 1])[polls[|polls| - 1].container := TailCursor(s, polls[|polls| - 1])]
  }

  predicate Polled(polls: seq<Poll>, id: string) { exists i :: 0 <= i < |polls| && polls[i].container == id }

  function Prune(s: State, polls: seq<Poll>): map<string, Cursor> {
    map id | id in s.memory && Polled(polls, id) :: s.memory[id]
  }

  // Cursors that never advanced are not written to disk.
  function Persist(durable: map<string, Cursor>, pending: map<string, Cursor>): map<string, Cursor> {
    durable + map id | id in pending && pending[id].maxTs != 0 :: pending[id]
  }

  function Collected(s: State, polls: seq<Poll>, flushOk: bool): State {
    var batch := Batch(s, polls);
    if batch != [] && !flushOk then s.(memory := Prune(s, polls))
    else State(s.table + StableSort(batch), Prune(s, polls) + Pending(s, polls), Persist(s.durable, Pending(s, polls)))
  }

  // ---------- runs ----------

  datatype Step =
    | Emit(container: string, line: Line)
    | Collect(polls: seq<Poll>, flushOk: bool)
    | Restart

  // `read` remembers how long each log was at its last stored answer.
  datatype World = World(logs: map<string, seq<Line>>, state: State, read: map<string, nat>)

  const BOOT := World(map[], State([], map[], map[]), map[])

  function LogOf(w: World, id: string): seq<Line> { if id in w.logs then w.logs[id] else [] }

  function ReadTo(w: World, id: string): nat { if id in w.read then w.read[id] else 0 }

  function ReadNow(w: World, polls: seq<Poll>): map<string, nat> {
    w.read + map id | id in w.logs && Answered(polls, id) :: |w.logs[id]|
  }

  function Apply(w: World, step: Step): World {
    match step
    case Emit(id, line) => w.(logs := w.logs[id := LogOf(w, id) + [line]])
    case Collect(polls, flushOk) =>
      World(w.logs, Collected(w.state, polls, flushOk), if Commits(w.state, polls, flushOk) then ReadNow(w, polls) else w.read)
    case Restart => w.(state := w.state.(memory := map[]))
  }

  // A container is polled at most once a cycle.
  ghost predicate PolledOnce(polls: seq<Poll>, id: string) {
    forall i, j :: 0 <= i < j < |polls| ==> !(polls[i].container == id == polls[j].container)
  }

  // The daemon answers with the newest lines, after skipping some older than the cursor.
  ghost predicate Honest(w: World, p: Poll) {
    p.response.Some? ==>
      exists k: nat :: Answers(LogOf(w, p.container), Loaded(w.state, p.container), k, p.response.value)
  }

  ghost predicate Answers(log: seq<Line>, c: Cursor, k: nat, response: seq<Line>) {
    k <= |log| && SkipsOld(log, k, c) && response == Answer(log, k)
  }

  // What a step owes to one container: its lines are stamped in order on either stream,
  // and its polls are honest. Other containers may do anything.
  ghost predicate Legal(w: World, step: Step, id: string) {
    match step
    case Emit(c, line) =>
      c == id ==>
        && line.ts > 0 && (line.stream == "stdout" || line.stream == "stderr")
        && (LogOf(w, id) != [] ==> LogOf(w, id)[|LogOf(w, id)| - 1].ts <= line.ts)
    case Collect(polls, _) =>
      (forall i :: 0 <= i < |polls| && polls[i].container == id ==> Honest(w, polls[i])) && PolledOnce(polls, id)
    case Restart => true
  }

  ghost predicate Run(steps: seq<Step>, ws: seq<World>, id: string) {
    && |ws| == |steps| + 1 && ws[0] == BOOT
    && forall i :: 0 <= i < |steps| ==> Legal(ws[i], steps[i], id) && ws[i + 1] == Apply(ws[i], steps[i])
  }

  // The cycle is committed and had an answer for the container.
  predicate Stores(w: World, step: Step, id: string) {
    step.Collect? && Commits(w.state, step.polls, step.flushOk) && Answered(step.polls, id)
  }

  // flush succeeds, or had nothing to store.
  predicate Commits(s: State, polls: seq<Poll>, flushOk: bool) { flushOk || Batch(s, polls) == [] }

  predicate Answered(polls: seq<Poll>, id: string) {
    exists i :: 0 <= i < |polls| && polls[i].container == id && polls[i].response.Some?
  }

  // Every stored answer of the first n steps reached back to the one before it.
  ghost predicate AllReach(steps: seq<Step>, ws: seq<World>, n: nat, id: string)
    requires n <= |steps| < |ws|
  {
    forall i :: 0 <= i < n && Stores(ws[i], steps[i], id) ==> Reaches(LogOf(ws[i], id), ReadTo(ws[i], id))
  }

  // ---------- one container in one cycle ----------

  lemma {:induction false} PendingAt(s: State, polls: seq<Poll>, i: nat)
    requires i < |polls| && PolledOnce(polls, polls[i].container)
    ensures polls[i].container in Pending(s, polls) && Pending(s, polls)[polls[i].container] == TailCursor(s, polls[i])
  {
    var n := |polls| - 1;
    if i < n { PendingAt(s, polls[..n], i); }
  }

  lemma PolledPrefix(polls: seq<Poll>, id: string)
    requires polls != []
    ensures Polled(polls[..|polls| - 1], id) ==> exists i :: 0 <= i < |polls| - 1 && polls[i].container == id
    ensures Polled(polls, id) <==> Polled(polls[..|polls| - 1], id) || polls[|polls| - 1].container == id
  {
    var init := polls[..|polls| - 1];
    if Polled(init, id) {
      var i :| 0 <= i < |init| && init[i].container == id;
      assert polls[i].container == id;
    }
    if Polled(polls, id) && polls[|polls| - 1].container != id {
      var i :| 0 <= i < |polls| && polls[i].container == id;
      assert init[i].container == id;
    }
  }

  lemma {:induction false} PendingDomain(s: State, polls: seq<Poll>, id: string)
    ensures id in Pending(s, polls) <==> Polled(polls, id)
  {
    if polls != [] {
      var n := |polls| - 1;
      PendingDomain(s, polls[..n], id);
      PolledPrefix(polls, id);
    }
  }

  lemma {:induction false} WrapLines(c: string, lines: seq<Line>, id: string)
    ensures Lines(Wrap(c, lines), id) == if c == id then lines else []
  {
    if lines != [] {
      var n := |lines| - 1;
      WrapLines(c, lines[..n], id);
      assert Wrap(c, lines)[..n] == Wrap(c, lines[..n]);
    }
  }

  // The lines a poll keeps for its container.
  function Kept(s: State, p: Poll): seq<Line> {
    if p.response.None? then [] else Scan(Loaded(s, p.container), Capped(p.response.value)).1
  }

  lemma TailLinesOf(s: State, p: Poll, id: string)
    ensures Lines(TailRows(s, p), id) == if p.container == id then Kept(s, p) else []
  {
    if p.response.Some? { WrapLines(p.container, Kept(s, p), id); }
  }

  lemma BatchNext(s: State, polls: seq<Poll>, id: string)
    requires polls != []
    ensures var last := polls[|polls| - 1];
            Lines(Batch(s, polls), id) == Lines(Batch(s, polls[..|polls| - 1]), id) + if last.container == id then Kept(s, last) else []
  {
    var last := polls[|polls| - 1];
    LinesConcat(Batch(s, polls[..|polls| - 1]), TailRows(s, last), id);
    TailLinesOf(s, last, id);
  }

  lemma {:induction false} BatchOther(s: State, polls: seq<Poll>, id: string)
    requires !Polled(polls, id)
    ensures Lines(Batch(s, polls), id) == []
  {
    if polls != [] {
      PolledPrefix(polls, id);
      BatchOther(s, polls[..|polls| - 1], id);
      BatchNext(s, polls, id);
    }
  }

  lemma {:induction false} BatchAt(s: State, polls: seq<Poll>, i: nat)
    requires i < |polls| && PolledOnce(polls, polls[i].container)
    ensures Lines(Batch(s, polls), polls[i].container) == Kept(s, polls[i])
  {
    var n, id := |polls| - 1, polls[i].container;
    BatchNext(s, polls, id);
    if i < n {
      assert polls[n].container != id;
      BatchAt(s, polls[..n], i);
    } else {
      assert !Polled(polls[..n], id);
      BatchOther(s, polls[..n], id);
    }
  }

  // One container of a committed cycle: its rows grow by the kept lines, which the sort
  // leaves alone when they are in order, and its cursor is the same in memory and on disk.
  ghost predicate Committed(s: State, s': State, id: string, kept: seq<Line>, c: Cursor) {
    && Loaded(s', id) == Durable(s', id) == c
    && |Lines(s'.table, id)| == |Lines(s.table, id)| + |kept|
    && (forall t :: CountAt(Lines(s'.table, id), t) == CountAt(Lines(s.table, id), t) + CountAt(kept, t))
    && (Sorted(kept) ==> Lines(s'.table, id) == Lines(s.table, id) + kept)
  }

  lemma CommitLines(s: State, batch: seq<Row>, id: string)
    ensures var lines, kept := Lines(s.table + StableSort(batch), id), Lines(batch, id);
            && |lines| == |Lines(s.table, id)| + |kept|
            && (forall t :: CountAt(lines, t) == CountAt(Lines(s.table, id), t) + CountAt(kept, t))
            && (Sorted(kept) ==> lines == Lines(s.table, id) + kept)
  {
    LinesConcat(s.table, StableSort(batch), id);
    SortCounts(batch, id, 0);
    forall t: nat
      ensures CountAt(Lines(s.table + StableSort(batch), id), t) == CountAt(Lines(s.table, id), t) + CountAt(Lines(batch, id), t)
    {
      SortCounts(batch, id, t);
      CountConcat(Lines(s.table, id), Lines(StableSort(batch), id), t);
    }
    if Sorted(Lines(batch, id)) { SortKeepsLines(batch, id); }
  }

  lemma CommitUnpolled(s: State, polls: seq<Poll>, id: string)
    requires !Polled(polls, id)
    ensures Committed(s, Collected(s, polls, true), id, [], Durable(s, id))
  {
    BatchOther(s, polls, id);
    CommitLines(s, Batch(s, polls), id);
    PendingDomain(s, polls, id);
  }

  lemma CommitPolled(s: State, polls: seq<Poll>, i: nat)
    requires i < |polls| && PolledOnce(polls, polls[i].container)
    requires TailCursor(s, polls[i]).maxTs == 0 ==> TailCursor(s, polls[i]) == Durable(s, polls[i].container)
    ensures Committed(s, Collected(s, polls, true), polls[i].container, Kept(s, polls[i]), TailCursor(s, polls[i]))
  {
    BatchAt(s, polls, i);
    CommitLines(s, Batch(s, polls), polls[i].container);
    PendingAt(s, polls, i);
  }

  // ---------- what every run keeps ----------

  // The container's cursor is near position p, and no more than p lines are stored.
  ghost predicate Near(w: World, id: string, p: nat) {
    var log := LogOf(w, id);
    && Sorted(log) && Stamped(log) && Named(log)
    && Loaded(w.state, id) == Durable(w.state, id) && CursorNear(log, p, Durable(w.state, id))
    && |Lines(w.state.table, id)| <= p
  }

  // Nothing is lost: the stored lines have the counts of the first p lines, and are those
  // lines in order when the log is a single stream.
  ghost predicate Whole(w: World, id: string, p: nat) {
    var log, lines := LogOf(w, id), Lines(w.state.table, id);
    && CursorAt(log, p, Durable(w.state, id)) && |lines| == p
    && (forall t: nat :: t > 0 ==> CountAt(lines, t) == CountAt(log[..p], t))
    && (OneStream(log) ==> lines == ClipAll(log[..p]))
  }

  // What a step must do for the lemmas below: keep the log and store `kept`, or append to
  // the log and store nothing.
  lemma QuietStep(w: World, w': World, id: string, p: nat)
    requires Near(w, id, p) && LogOf(w, id) <= LogOf(w', id)
    requires Sorted(LogOf(w', id)) && Stamped(LogOf(w', id)) && Named(LogOf(w', id))
    requires Loaded(w'.state, id) == Durable(w'.state, id) == Durable(w.state, id)
    requires |Lines(w'.state.table, id)| == |Lines(w.state.table, id)|
    requires forall t :: CountAt(Lines(w'.state.table, id), t) == CountAt(Lines(w.state.table, id), t)
    requires OneStream(LogOf(w', id)) ==> Lines(w'.state.table, id) == Lines(w.state.table, id)
    ensures Near(w', id, p) && (Whole(w, id, p) ==> Whole(w', id, p))
  {
    assert LogOf(w', id)[..p] == LogOf(w, id)[..p];
    if OneStream(LogOf(w', id)) { assert forall i :: 0 <= i < |LogOf(w, id)| ==> LogOf(w', id)[i] == LogOf(w, id)[i]; }
  }

  lemma LogGrows(log: seq<Line>, line: Line)
    requires Sorted(log) && Stamped(log) && Named(log)
    requires line.ts > 0 && (line.stream == "stdout" || line.stream == "stderr")
    requires log != [] ==> log[|log| - 1].ts <= line.ts
    ensures Sorted(log + [line]) && Stamped(log + [line]) && Named(log + [line])
  {}

  lemma EmitStep(w: World, step: Step, id: string, p: nat)
    requires Near(w, id, p) && step.Emit? && Legal(w, step, id)
    ensures Near(Apply(w, step), id, p) && (Whole(w, id, p) ==> Whole(Apply(w, step), id, p))
    ensures |Lines(Apply(w, step).state.table, id)| == |Lines(w.state.table, id)|
  {
    var w' := Apply(w, step);
    assert w'.state == w.state;
    if step.container == id {
      LogGrows(LogOf(w, id), step.line);
    } else {
      assert LogOf(w', id) == LogOf(w, id);
    }
    QuietStep(w, w', id, p);
  }

  lemma RestartStep(w: World, id: string, p: nat)
    requires Near(w, id, p)
    ensures Near(Apply(w, Restart), id, p) && (Whole(w, id, p) ==> Whole(Apply(w, Restart), id, p))
    ensures |Lines(Apply(w, Restart).state.table, id)| == |Lines(w.state.table, id)|
  {
    QuietStep(w, Apply(w, Restart), id, p);
  }

  // A committed cycle without an answer for the container.
  lemma CommitIdle(w: World, step: Step, id: string, p: nat)
    requires Near(w, id, p) && step.Collect? && Legal(w, step, id) && !Stores(w, step, id)
    ensures step.flushOk || Batch(w.state, step.polls) == [] ==>
              Committed(w.state, Collected(w.state, step.polls, step.flushOk), id, [], Durable(w.state, id))
  {
    if step.flushOk || Batch(w.state, step.polls) == [] {
      if Polled(step.polls, id) {
        var i :| 0 <= i < |step.polls| && step.polls[i].container == id;
        CommitPolled(w.state, step.polls, i);
      } else {
        CommitUnpolled(w.state, step.polls, id);
      }
      assert Collected(w.state, step.polls, step.flushOk) == Collected(w.state, step.polls, true);
    }
  }

  // A cycle that fails, or has no answer for the container.
  lemma IdleStep(w: World, step: Step, id: string, p: nat)
    requires Near(w, id, p) && step.Collect? && Legal(w, step, id) && !Stores(w, step, id)
    ensures Near(Apply(w, step), id, p) && (Whole(w, id, p) ==> Whole(Apply(w, step), id, p))
    ensures |Lines(Apply(w, step).state.table, id)| == |Lines(w.state.table, id)|
  {
    CommitIdle(w, step, id, p);
    QuietStep(w, Apply(w, step), id, p);
  }

  lemma StoredAnswer(w: World, step: Step, id: string) returns (i: nat, k: nat)
    requires Legal(w, step, id) && Stores(w, step, id)
    ensures i < |step.polls| && step.polls[i].container == id
    ensures k <= |LogOf(w, id)| && SkipsOld(LogOf(w, id), k, Loaded(w.state, id))
    ensures step.polls[i].response == Some(Answer(LogOf(w, id), k))
  {
    i :| 0 <= i < |step.polls| && step.polls[i].container == id && step.polls[i].response.Some?;
    assert Honest(w, step.polls[i]);
    k :| Answers(LogOf(w, id), Loaded(w.state, id), k, step.polls[i].response.value);
  }

  lemma AnswerScanned(s: State, id: string, log: seq<Line>, k: nat)
    requires k <= |log| && Named(log)
    ensures var p, scan := Poll(id, Some(Answer(log, k))), Scan(Loaded(s, id), Answer(log, k));
            Kept(s, p) == scan.1 && TailCursor(s, p) == Advanced(scan.0)
  {
    AnswerFits(log, k);
  }

  // A stored answer is the newest part of the log, cut somewhere.
  lemma StoreCommits(w: World, step: Step, id: string, p: nat) returns (k: nat)
    requires Near(w, id, p) && Legal(w, step, id) && Stores(w, step, id)
    ensures k <= |LogOf(w, id)| && SkipsOld(LogOf(w, id), k, Durable(w.state, id))
    ensures var scan := Scan(Durable(w.state, id), Answer(LogOf(w, id), k));
            Committed(w.state, Apply(w, step).state, id, scan.1, Advanced(scan.0))
  {
    var i;
    i, k := StoredAnswer(w, step, id);
    AnswerScanned(w.state, id, LogOf(w, id), k);
    UnmovedCursor(LogOf(w, id), p, Durable(w.state, id), k);
    assert step.polls[i] == Poll(id, Some(Answer(LogOf(w, id), k)));
    CommitPolled(w.state, step.polls, i);
    assert Apply(w, step).state == Collected(w.state, step.polls, true);
  }

  lemma UnmovedCursor(log: seq<Line>, p: nat, c: Cursor, k: nat)
    requires Sorted(log) && Stamped(log) && Named(log) && CursorNear(log, p, c) && SkipsOld(log, k, c)
    ensures var c' := Advanced(Scan(c, Answer(log, k)).0); c'.maxTs == 0 ==> c' == c
  {
    PollNear(log, p, c, k);
  }

  // How many lines a stored answer adds, and whether any is lost.
  lemma StoreStep(w: World, step: Step, id: string, p: nat)
    requires Near(w, id, p) && Legal(w, step, id) && Stores(w, step, id)
    ensures var w', log := Apply(w, step), LogOf(w, id);
            && Near(w', id, |log|)
            && (|Lines(w.state.table, id)| < p ==> |Lines(w'.state.table, id)| < |log|)
            && (Whole(w, id, p) && Reaches(log, p) ==> Whole(w', id, |log|))
            && (Whole(w, id, p) && !Reaches(log, p) ==> |Lines(w'.state.table, id)| < |log|)
  {
    var k := StoreCommits(w, step, id, p);
    StoreNear(w, Apply(w, step), id, p, k);
    if Whole(w, id, p) {
      PollKeepsAll(LogOf(w, id), p, Durable(w.state, id), k);
      if Reaches(LogOf(w, id), p) { StoreWhole(w, Apply(w, step), id, p, k); }
    }
  }

  lemma StoreNear(w: World, w': World, id: string, p: nat, k: nat)
    requires Near(w, id, p) && LogOf(w', id) == LogOf(w, id)
    requires k <= |LogOf(w, id)| && SkipsOld(LogOf(w, id), k, Durable(w.state, id))
    requires var scan := Scan(Durable(w.state, id), Answer(LogOf(w, id), k));
             Committed(w.state, w'.state, id, scan.1, Advanced(scan.0))
    ensures Near(w', id, |LogOf(w, id)|)
    ensures var kept := Scan(Durable(w.state, id), Answer(LogOf(w, id), k)).1;
            |Lines(w'.state.table, id)| == |Lines(w.state.table, id)| + |kept| && |kept| <= |LogOf(w, id)| - p
  {
    PollNear(LogOf(w, id), p, Durable(w.state, id), k);
    PollAtMost(LogOf(w, id), p, Durable(w.state, id), k);
  }

  lemma AnswerFits(log: seq<Line>, k: nat)
    requires k <= |log| && Named(log)
    ensures |Answer(log, k)| <= MAX_LINES_PER_POLL
  {
    var part := log[TailStart(log, k)..];
    BlocksPermute(part);
    assert |multiset(Blocks(part))| == |multiset(part)|;
  }

  lemma StoreWhole(w: World, w': World, id: string, p: nat, k: nat)
    requires Near(w, id, p) && Whole(w, id, p) && Reaches(LogOf(w, id), p) && LogOf(w', id) == LogOf(w, id)
    requires k <= |LogOf(w, id)| && SkipsOld(LogOf(w, id), k, Durable(w.state, id))
    requires var scan := Scan(Durable(w.state, id), Answer(LogOf(w, id), k));
             Committed(w.state, w'.state, id, scan.1, Advanced(scan.0))
    ensures Whole(w', id, |LogOf(w, id)|)
  {
    var log, c := LogOf(w, id), Durable(w.state, id);
    PollKeepsAll(log, p, c, k);
    assert log[..|log|] == log;
    forall t: nat | t > 0
      ensures CountAt(Lines(w'.state.table, id), t) == CountAt(log, t)
    {
      AnswerComplete(log, p, c, k, t);
    }
    AnswerComplete(log, p, c, k, 1);
    if OneStream(log) { AnswerInOrder(log, p, c, k); }
  }

  // An answer that reaches back completes the counts and moves the cursor to the end.
  lemma AnswerComplete(log: seq<Line>, p: nat, c: Cursor, k: nat, t: nat)
    requires Sorted(log) && Stamped(log) && Named(log) && CursorAt(log, p, c) && SkipsOld(log, k, c) && Reaches(log, p) && t > 0
    ensures CountAt(log[..p], t) + CountAt(Scan(c, Answer(log, k)).1, t) == CountAt(log, t)
    ensures CursorAt(log, |log|, Advanced(Scan(c, Answer(log, k)).0))
  {
    var j := TailStart(log, k);
    ReachesCovers(log, p, c, k);
    AnswerCounts(log, j, 0);
    forall u: nat { AnswerCounts(log, j, u); }
    PollCounts(log, p, c, j, Answer(log, k), t);
    PollCursor(log, p, c, j, Answer(log, k));
  }

  // A single stream is completed in order.
  lemma AnswerInOrder(log: seq<Line>, p: nat, c: Cursor, k: nat)
    requires Sorted(log) && Stamped(log) && OneStream(log) && CursorAt(log, p, c) && SkipsOld(log, k, c) && Reaches(log, p)
    ensures var kept := Scan(c, Answer(log, k)).1; Sorted(kept) && ClipAll(log[..p]) + kept == ClipAll(log)
  {
    var j := TailStart(log, k);
    ReachesCovers(log, p, c, k);
    OneStreamInOrder(log[j..]);
    ScanInOrder(log, p, c, j, |log|);
    assert log[j..|log|] == log[j..];
    assert log[..|log|] == log;
    ClipSorted(log, p, |log|);
  }

  lemma ClipSorted(log: seq<Line>, n: nat, m: nat)
    requires Sorted(log) && n <= m <= |log|
    ensures Sorted(ClipAll(log[n..m]))
    ensures ClipAll(log[..n]) + ClipAll(log[n..m]) == ClipAll(log[..m])
  {
    assert log[..m] == log[..n] + log[n..m];
  }

  // The two cases a run can be in: nothing was lost, or lines are missing.
  ghost predicate Tally(w: World, id: string, all: bool) {
    var p := ReadTo(w, id);
    Near(w, id, p) && (all ==> Whole(w, id, p)) && (!all ==> |Lines(w.state.table, id)| < p)
  }

  lemma StoreReads(w: World, step: Step, id: string)
    requires Stores(w, step, id) && ReadTo(w, id) <= |LogOf(w, id)|
    ensures LogOf(Apply(w, step), id) == LogOf(w, id) && ReadTo(Apply(w, step), id) == |LogOf(w, id)|
  {}

  lemma StepTally(w: World, step: Step, id: string, all: bool)
    requires Tally(w, id, all) && Legal(w, step, id)
    ensures Tally(Apply(w, step), id, all && (Stores(w, step, id) ==> Reaches(LogOf(w, id), ReadTo(w, id))))
  {
    if Stores(w, step, id) {
      StoreReads(w, step, id);
      StoreStep(w, step, id, ReadTo(w, id));
    } else {
      match step
      case Emit(_, _) => EmitStep(w, step, id, ReadTo(w, id));
      case Collect(_, _) => IdleStep(w, step, id, ReadTo(w, id));
      case Restart => RestartStep(w, id, ReadTo(w, id));
    }
  }

  lemma BootTally(id: string)
    ensures Tally(BOOT, id, true)
  {
    assert ClipAll(LogOf(BOOT, id)[..0]) == [];
  }

  lemma {:induction false} RunTally(steps: seq<Step>, ws: seq<World>, n: nat, id: string)
    requires Run(steps, ws, id) && n <= |steps|
    ensures Tally(ws[n], id, AllReach(steps, ws, n, id))
  {
    if n == 0 {
      BootTally(id);
      assert AllReach(steps, ws, n, id);
    } else {
      RunTally(steps, ws, n - 1, id);
      StepTally(ws[n - 1], steps[n - 1], id, AllReach(steps, ws, n - 1, id));
      assert AllReach(steps, ws, n, id) ==
        (AllReach(steps, ws, n - 1, id) && (Stores(ws[n - 1], steps[n - 1], id) ==> Reaches(LogOf(ws[n - 1], id), ReadTo(ws[n - 1], id))));
    }
  }

  // Through failed polls, failed inserts, vanishing containers and restarts, and whatever
  // other containers do: the stored lines of a single-stream container are its log up to
  // the last stored answer, each line once and in order, if and only if every stored
  // answer reached back to the one before it. Otherwise lines are missing.
  lemma ExactlyOnce(steps: seq<Step>, ws: seq<World>, n: nat, id: string)
    requires Run(steps, ws, id) && n <= |steps| && OneStream(LogOf(ws[n], id))
    ensures var lines, log, p := Lines(ws[n].state.table, id), LogOf(ws[n], id), ReadTo(ws[n], id);
            && p <= |log|
            && (lines == ClipAll(log[..p]) <==> AllReach(steps, ws, n, id))
            && (!AllReach(steps, ws, n, id) ==> |lines| < p)
  {
    RunTally(steps, ws, n, id);
  }

  // With two streams the same holds for the number of lines of each stamp.
  lemma CountsExact(steps: seq<Step>, ws: seq<World>, n: nat, id: string)
    requires Run(steps, ws, id) && n <= |steps|
    ensures var lines, log, p := Lines(ws[n].state.table, id), LogOf(ws[n], id), ReadTo(ws[n], id);
            && p <= |log|
            && (AllReach(steps, ws, n, id) <==> |lines| == p && forall t: nat :: t > 0 ==> CountAt(lines, t) == CountAt(log[..p], t))
            && (!AllReach(steps, ws, n, id) ==> |lines| < p)
  {
    RunTally(steps, ws, n, id);
  }

  // A stored answer brings a single-stream container up to date exactly when it and every
  // one before it reached back far enough.
  lemma CaughtUp(steps: seq<Step>, ws: seq<World>, n: nat, id: string)
    requires Run(steps, ws, id) && n < |steps| && OneStream(LogOf(ws[n], id)) && Stores(ws[n], steps[n], id)
    ensures Lines(ws[n + 1].state.table, id) == ClipAll(LogOf(ws[n + 1], id)) <==> AllReach(steps, ws, n + 1, id)
  {
    ExactlyOnce(steps, ws, n, id);
    assert ws[n + 1] == Apply(ws[n], steps[n]);
    StoreReads(ws[n], steps[n], id);
    ExactlyOnce(steps, ws, n + 1, id);
    var log := LogOf(ws[n], id);
    assert log[..|log|] == log;
  }

  // ---------- the loops ----------

  // A line whose stamp did not parse is stamped with the time of the poll.
  function Stamp(line: Line, now: nat): Line { if line.ts == 0 then line.(ts := now) else line }

  function StampAll(lines: seq<Line>, now: nat): (r: seq<Line>)
    ensures |r| == |lines|
  {
    seq(|lines|, i requires 0 <= i < |lines| => Stamp(lines[i], now))
  }

  function StampPolls(polls: seq<Poll>, nows: seq<nat>): (r: seq<Poll>)
    requires |nows| == |polls|
    ensures |r| == |polls|
  {
    seq(|polls|, i requires 0 <= i < |polls| =>
      if polls[i].response.None? then polls[i] else Poll(polls[i].container, Some(StampAll(polls[i].response.value, nows[i]))))
  }

  // Only a missing stamp becomes the time of the poll; nothing else of a line changes.
  lemma StampMeans(lines: seq<Line>, now: nat, i: nat)
    requires i < |lines|
    ensures var s := StampAll(lines, now)[i];
            s.stream == lines[i].stream && s.message == lines[i].message && s.ts == if lines[i].ts == 0 then now else lines[i].ts
  {}

  // A poll whose lines all carry stamps is taken as it is, whatever the other polls hold.
  lemma StampedPoll(polls: seq<Poll>, nows: seq<nat>, i: nat)
    requires |nows| == |polls| && i < |polls|
    requires polls[i].response.Some? ==> Stamped(polls[i].response.value)
    ensures StampPolls(polls, nows)[i] == polls[i]
  {
    if polls[i].response.Some? { assert StampAll(polls[i].response.value, nows[i]) == polls[i].response.value; }
  }

  lemma StampedCycle(polls: seq<Poll>, nows: seq<nat>)
    requires |nows| == |polls|
    requires forall i :: 0 <= i < |polls| && polls[i].response.Some? ==> Stamped(polls[i].response.value)
    ensures StampPolls(polls, nows) == polls
  {
    forall i | 0 <= i < |polls| ensures StampPolls(polls, nows)[i] == polls[i] { StampedPoll(polls, nows, i); }
  }

  // An honest answer carries stamps.
  lemma HonestStamped(w: World, p: Poll)
    requires Stamped(LogOf(w, p.container)) && Named(LogOf(w, p.container)) && Honest(w, p) && p.response.Some?
    ensures Stamped(p.response.value)
  {
    var log := LogOf(w, p.container);
    var k: nat :| Answers(log, Loaded(w.state, p.container), k, p.response.value);
    AnswerCounts(log, TailStart(log, k), 0);
  }

  // The polls of a container are as they were after stamping.
  ghost predicate SamePolls(polls: seq<Poll>, stamped: seq<Poll>, id: string) {
    && |stamped| == |polls|
    && forall i :: 0 <= i < |polls| ==>
         stamped[i].container == polls[i].container && (polls[i].container == id ==> stamped[i] == polls[i])
  }

  lemma StampedSame(w: World, polls: seq<Poll>, flushOk: bool, nows: seq<nat>, id: string)
    requires |nows| == |polls| && Stamped(LogOf(w, id)) && Named(LogOf(w, id)) && Legal(w, Step.Collect(polls, flushOk), id)
    ensures SamePolls(polls, StampPolls(polls, nows), id)
  {
    forall i | 0 <= i < |polls| && polls[i].container == id
      ensures StampPolls(polls, nows)[i] == polls[i]
    {
      if polls[i].response.Some? { HonestStamped(w, polls[i]); }
      StampedPoll(polls, nows, i);
    }
  }

  // What is legal for a container stays legal.
  lemma SameLegal(w: World, polls: seq<Poll>, stamped: seq<Poll>, flushOk: bool, id: string)
    requires SamePolls(polls, stamped, id) && Legal(w, Step.Collect(polls, flushOk), id)
    ensures Legal(w, Step.Collect(stamped, flushOk), id)
  {}

  lemma SameAnswered(polls: seq<Poll>, stamped: seq<Poll>, id: string)
    requires SamePolls(polls, stamped, id)
    ensures Answered(stamped, id) <==> Answered(polls, id)
  {
    if Answered(polls, id) {
      var i :| 0 <= i < |polls| && polls[i].container == id && polls[i].response.Some?;
      assert stamped[i] == polls[i];
    }
    if Answered(stamped, id) {
      var i :| 0 <= i < |stamped| && stamped[i].container == id && stamped[i].response.Some?;
      assert stamped[i] == polls[i];
    }
  }

  lemma RunExtends(steps: seq<Step>, ws: seq<World>, step: Step, id: string)
    requires Run(steps, ws, id) && Legal(ws[|steps|], step, id)
    ensures Run(steps + [step], ws + [Apply(ws[|steps|], step)], id)
  {
    var n, w := |steps|, Apply(ws[|steps|], step);
    var steps', ws' := steps + [step], ws + [w];
    assert ws'[n] == ws[n] && ws'[n + 1] == w && steps'[n] == step;
    forall i | 0 <= i < n
      ensures Legal(ws'[i], steps'[i], id) && ws'[i + 1] == Apply(ws'[i], steps'[i])
    {
      assert ws'[i] == ws[i] && ws'[i + 1] == ws[i + 1] && steps'[i] == steps[i];
    }
  }

  // A stamped cycle over honest answers is the next step of the run.
  lemma CycleInRun(polls: seq<Poll>, flushOk: bool, nows: seq<nat>, id: string, steps: seq<Step>, ws: seq<World>)
    requires |nows| == |polls| && Run(steps, ws, id) && Legal(ws[|steps|], Step.Collect(polls, flushOk), id)
    ensures var step, w := Step.Collect(StampPolls(polls, nows), flushOk), ws[|steps|];
            var steps', ws' := steps + [step], ws + [Apply(w, step)];
            && Run(steps', ws', id) && LogOf(Apply(w, step), id) == LogOf(w, id)
            && (Commits(w.state, StampPolls(polls, nows), flushOk) && Answered(polls, id) ==>
                  && ReadTo(Apply(w, step), id) == |LogOf(w, id)|
                  && (OneStream(LogOf(w, id)) ==>
                        (Lines(Apply(w, step).state.table, id) == ClipAll(LogOf(w, id)) <==> AllReach(steps', ws', |steps'|, id))))
  {
    var w, stamped := ws[|steps|], StampPolls(polls, nows);
    RunTally(steps, ws, |steps|, id);
    StampedSame(w, polls, flushOk, nows, id);
    SameLegal(w, polls, stamped, flushOk, id);
    SameAnswered(polls, stamped, id);
    var step := Step.Collect(stamped, flushOk);
    RunExtends(steps, ws, step, id);
    if Commits(w.state, stamped, flushOk) && Answered(polls, id) {
      StoreReads(w, step, id);
      if OneStream(LogOf(w, id)) { CaughtUp(steps + [step], ws + [Apply(w, step)], |steps|, id); }
    }
  }

  lemma WrapConcat(batch: seq<Row>, id: string, a: seq<Line>, b: seq<Line>)
    ensures batch + Wrap(id, a + b) == batch + Wrap(id, a) + Wrap(id, b)
  {
    assert Wrap(id, a + b) == Wrap(id, a) + Wrap(id, b);
  }

  class TailKeep {
    const cursor: Cursor
    var maxTs: nat
    var seen: nat
    var boundary: nat

    function View(): Keep
      reads this
    {
      Keep(cursor, maxTs, seen, boundary)
    }

    constructor (c: Cursor)
      ensures View() == Start(c)
    {
      cursor, maxTs, seen, boundary := c, c.maxTs, 0, c.boundary;
    }

    // Appends one daemon line when it is newer than the cursor.
    method Offer(batch: seq<Row>, id: string, raw: Line, now: nat) returns (grown: seq<Row>)
      modifies this
      ensures View() == Advance(old(View()), Stamp(raw, now))
      ensures grown == batch + Wrap(id, NewLines(old(View()), Stamp(raw, now)))
    {
      var line := Stamp(raw, now);
      if cursor.maxTs != 0 && line.ts < cursor.maxTs { return batch; }
      if line.ts == cursor.maxTs && seen < cursor.boundary {
        seen := seen + 1;
        return batch;
      }
      if maxTs == 0 || line.ts > maxTs {
        maxTs, boundary := line.ts, 1;
      } else if line.ts == maxTs {
        boundary := boundary + 1;
      }
      return batch + [Row(id, Clip(line))];
    }
  }

  class Collector {
    var table: seq<Row>
    var cursors: map<string, Cursor>
    var durable: map<string, Cursor>

    function View(): State
      reads this
    {
      State(table, cursors, durable)
    }

    constructor ()
      ensures View() == BOOT.state
    {
      table, cursors, durable := [], map[], map[];
    }

    method TailOne(id: string, response: Option<seq<Line>>, now: nat, batch: seq<Row>)
      returns (grown: seq<Row>, cursor: Cursor)
      ensures var p := Poll(id, if response.Some? then Some(StampAll(response.value, now)) else None);
              grown == batch + TailRows(View(), p) && cursor == TailCursor(View(), p)
    {
      var loaded := if id in cursors then cursors[id] else if id in durable then durable[id] else ZERO;
      if response.None? { return batch, loaded; }
      grown, cursor := TailLines(loaded, id, response.value, now, batch);
    }

    static method TailLines(loaded: Cursor, id: string, lines: seq<Line>, now: nat, batch: seq<Row>)
      returns (grown: seq<Row>, cursor: Cursor)
      ensures var scan := Scan(loaded, Capped(StampAll(lines, now)));
              grown == batch + Wrap(id, scan.1) && cursor == Advanced(scan.0)
    {
      var keep := new TailKeep(loaded);
      var i := 0;
      ghost var stamped := Capped(StampAll(lines, now));
      grown := batch;
      while i < |lines| && i < MAX_LINES_PER_POLL
        invariant 0 <= i <= |stamped|
        invariant keep.View() == Scan(loaded, stamped[..i]).0
        invariant grown == batch + Wrap(id, Scan(loaded, stamped[..i]).1)
      {
        ScanNext(loaded, stamped, i);
        WrapConcat(batch, id, Scan(loaded, stamped[..i]).1, NewLines(keep.View(), stamped[i]));
        grown := keep.Offer(grown, id, lines[i], now);
        i := i + 1;
      }
      assert stamped[..i] == stamped;
      var k := keep.View();
      cursor := if k.maxTs == 0 then k.cursor else Cursor(k.maxTs, k.boundary);
    }

    // tailManaged: the batch and the pending cursors of a cycle; poll i runs at nows[i].
    method TailManaged(polls: seq<Poll>, nows: seq<nat>) returns (batch: seq<Row>, pending: map<string, Cursor>)
      requires |nows| == |polls|
      ensures batch == Batch(View(), StampPolls(polls, nows)) && pending == Pending(View(), StampPolls(polls, nows))
    {
      ghost var s, stamped := View(), StampPolls(polls, nows);
      batch, pending := [], map[];
      var i := 0;
      while i < |polls|
        invariant 0 <= i <= |polls|
        invariant batch == Batch(s, stamped[..i]) && pending == Pending(s, stamped[..i])
      {
        CycleNext(s, stamped, i);
        var cursor;
        batch, cursor := TailOne(polls[i].container, polls[i].response, nows[i], batch);
        pending := pending[polls[i].container := cursor];
        i := i + 1;
      }
      assert stamped[..i] == stamped;
    }

    // One cycle: flush, and the cursor updates.
    method Collect(polls: seq<Poll>, flushOk: bool, nows: seq<nat>) returns (stored: bool)
      requires |nows| == |polls|
      modifies this
      ensures View() == Collected(old(View()), StampPolls(polls, nows), flushOk)
      ensures (forall i :: 0 <= i < |polls| && polls[i].response.Some? ==> Stamped(polls[i].response.value)) ==>
                View() == Collected(old(View()), polls, flushOk)
      ensures stored <==> flushOk || Batch(old(View()), StampPolls(polls, nows)) == []
    {
      var batch, pending := TailManaged(polls, nows);
      ghost var before, stamped := View(), StampPolls(polls, nows);
      if forall i :: 0 <= i < |polls| && polls[i].response.Some? ==> Stamped(polls[i].response.value) { StampedCycle(polls, nows); }
      SamePolled(polls, nows);
      cursors := map id | id in cursors && Polled(polls, id) :: cursors[id];
      assert cursors == Prune(before, stamped);
      if batch != [] && !flushOk { return false; }
      table := table + StableSort(batch);
      cursors := cursors + pending;
      durable := Persist(durable, pending);
      return true;
    }

    // A cycle continues any run of the container that led here, so that what the runs keep
    // holds of the collector itself.
    method CollectInRun(polls: seq<Poll>, flushOk: bool, nows: seq<nat>, ghost id: string, ghost steps: seq<Step>, ghost ws: seq<World>)
      returns (stored: bool, ghost steps': seq<Step>, ghost ws': seq<World>)
      requires |nows| == |polls| && Run(steps, ws, id) && ws[|steps|].state == View()
      requires Legal(ws[|steps|], Step.Collect(polls, flushOk), id)
      modifies this
      ensures steps' == steps + [Step.Collect(StampPolls(polls, nows), flushOk)] && Run(steps', ws', id)
      ensures ws'[|steps'|].state == View() && LogOf(ws'[|steps'|], id) == LogOf(ws[|steps|], id)
      ensures stored && Answered(polls, id) ==> ReadTo(ws'[|steps'|], id) == |LogOf(ws[|steps|], id)|
      ensures OneStream(LogOf(ws[|steps|], id)) && stored && Answered(polls, id) ==>
                (Lines(table, id) == ClipAll(LogOf(ws[|steps|], id)) <==> AllReach(steps', ws', |steps'|, id))
    {
      CycleInRun(polls, flushOk, nows, id, steps, ws);
      ghost var step := Step.Collect(StampPolls(polls, nows), flushOk);
      steps', ws' := steps + [step], ws + [Apply(ws[|steps|], step)];
      stored := Collect(polls, flushOk, nows);
    }
  }

  lemma CycleNext(s: State, polls: seq<Poll>, i: nat)
    requires i < |polls|
    ensures Batch(s, polls[..i + 1]) == Batch(s, polls[..i]) + TailRows(s, polls[i])
    ensures Pending(s, polls[..i + 1]) == Pending(s, polls[..i])[polls[i].container := TailCursor(s, polls[i])]
  {
    assert polls[..i + 1][..i] == polls[..i];
  }

  lemma SamePolled(polls: seq<Poll>, nows: seq<nat>)
    requires |nows| == |polls|
    ensures forall id :: Polled(polls, id) <==> Polled(StampPolls(polls, nows), id)
  {
    var stamped := StampPolls(polls, nows);
    forall id
      ensures Polled(polls, id) <==> Polled(stamped, id)
    {
      if k :| 0 <= k < |polls| && polls[k].container == id { assert stamped[k].container == id; }
      if k :| 0 <= k < |stamped| && stamped[k].container == id { assert polls[k].container == id; }
    }
  }
}

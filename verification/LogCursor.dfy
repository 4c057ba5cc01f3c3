/**
 Docker log tailing: a cursor of "newest kept stamp plus the number of lines kept at
 that stamp" decides which lines of the next poll are new.
 */
module LogCursor {

  const MAX_LINES_PER_POLL: nat := 1000
  const MAX_LINE_BYTES: nat := 8192

  // Stamps are instants; 0 is the zero time.
  datatype Line = Line(ts: nat, stream: string, message: string)

  datatype Cursor = Cursor(maxTs: nat, boundary: nat)

  const ZERO := Cursor(0, 0)

  function Clip(line: Line): Line {
    if |line.message| <= MAX_LINE_BYTES then line else line.(message := line.message[..MAX_LINE_BYTES])
  }

  // A message keeps at most its first 8192 bytes; nothing else of a line changes.
  lemma ClipMeans(line: Line)
    ensures Clip(line).ts == line.ts && Clip(line).stream == line.stream && Clip(line).message <= line.message
    ensures |Clip(line).message| == if |line.message| <= 8192 then |line.message| else 8192
  {}

  function ClipAll(lines: seq<Line>): (r: seq<Line>)
    ensures |r| == |lines|
  {
    seq(|lines|, i requires 0 <= i < |lines| => Clip(lines[i]))
  }

  // ---------- one poll ----------

  // tailKeep: the cursor the poll started from, and what it has seen so far.
  datatype Keep = Keep(cursor: Cursor, maxTs: nat, seen: nat, boundary: nat)

  function Start(c: Cursor): Keep { Keep(c, c.maxTs, 0, c.boundary) }

  predicate Older(k: Keep, line: Line) { k.cursor.maxTs != 0 && line.ts < k.cursor.maxTs }

  predicate AtBoundary(k: Keep, line: Line) { line.ts == k.cursor.maxTs && k.seen < k.cursor.boundary }

  function Advance(k: Keep, line: Line): Keep {
    if Older(k, line) then k
    else if AtBoundary(k, line) then k.(seen := k.seen + 1)
    else if k.maxTs == 0 || line.ts > k.maxTs then k.(maxTs := line.ts, boundary := 1)
    else if line.ts == k.maxTs then k.(boundary := k.boundary + 1)
    else k
  }

  function NewLines(k: Keep, line: Line): seq<Line> {
    if Older(k, line) || AtBoundary(k, line) then [] else [Clip(line)]
  }

  // State and kept lines after the lines of a response, in order.
  function Scan(c: Cursor, lines: seq<Line>): (Keep, seq<Line>) {
    if lines == [] then (Start(c), [])
    else
      var (k, kept) := Scan(c, lines[..|lines| - 1]);
      var last := lines[|lines| - 1];
      (Advance(k, last), kept + NewLines(k, last))
  }

  function Advanced(k: Keep): Cursor { if k.maxTs == 0 then k.cursor else Cursor(k.maxTs, k.boundary) }

  // ---------- counting ----------

  function CountAt(lines: seq<Line>, t: nat): nat {
    if lines == [] then 0
    else CountAt(lines[..|lines| - 1], t) + if lines[|lines| - 1].ts == t then 1 else 0
  }

  lemma {:induction false} CountConcat(a: seq<Line>, b: seq<Line>, t: nat)
    ensures CountAt(a + b, t) == CountAt(a, t) + CountAt(b, t)
  {
    if b == [] {
      assert a + b == a;
    } else {
      assert (a + b)[..|a + b| - 1] == a + b[..|b| - 1];
      CountConcat(a, b[..|b| - 1], t);
    }
  }

  lemma {:induction false} CountNone(lines: seq<Line>, t: nat)
    requires forall i :: 0 <= i < |lines| ==> lines[i].ts != t
    ensures CountAt(lines, t) == 0
  {
    if lines != [] { CountNone(lines[..|lines| - 1], t); }
  }

  // ---------- any response order: counts per stamp ----------

  ghost predicate Stamped(lines: seq<Line>) { forall i :: 0 <= i < |lines| ==> lines[i].ts > 0 }

  // A cursor that was ever advanced has both parts; the zero cursor has neither.
  predicate CursorShape(c: Cursor) { c.maxTs == 0 ==> c.boundary == 0 }

  function Min(a: nat, b: nat): nat { if a < b then a else b }

  lemma {:induction false} ScanSeen(c: Cursor, lines: seq<Line>)
    requires CursorShape(c) && Stamped(lines)
    ensures Scan(c, lines).0.cursor == c
    ensures Scan(c, lines).0.seen == if c.maxTs == 0 then 0 else Min(CountAt(lines, c.maxTs), c.boundary)
  {
    if lines != [] { ScanSeen(c, lines[..|lines| - 1]); }
  }

  // What a poll keeps, stamp by stamp, whatever order the daemon lists the lines in.
  lemma {:induction false} ScanKept(c: Cursor, lines: seq<Line>, t: nat)
    requires CursorShape(c) && Stamped(lines) && t > 0
    ensures CountAt(Scan(c, lines).1, t) ==
      if t < c.maxTs then 0 else if t == c.maxTs then CountAt(lines, t) - Min(CountAt(lines, t), c.boundary) else CountAt(lines, t)
  {
    if lines != [] {
      var init, last := lines[..|lines| - 1], lines[|lines| - 1];
      ScanKept(c, init, t);
      ScanSeen(c, init);
      var (k, kept) := Scan(c, init);
      CountConcat(kept, NewLines(k, last), t);
      CountOne(Clip(last), t);
    }
  }

  lemma CountOne(x: Line, t: nat)
    ensures CountAt([x], t) == if x.ts == t then 1 else 0
  {
    assert [x][..0] == [];
  }

  // The cursor a poll leaves: the largest stamp there is, and the lines at it.
  lemma {:induction false} ScanMax(c: Cursor, lines: seq<Line>)
    requires CursorShape(c) && Stamped(lines)
    ensures var k := Scan(c, lines).0;
            && c.maxTs <= k.maxTs
            && (forall i :: 0 <= i < |lines| ==> lines[i].ts <= k.maxTs)
            && (k.maxTs > c.maxTs ==> exists i :: 0 <= i < |lines| && lines[i].ts == k.maxTs)
            && k.boundary == (if k.maxTs == c.maxTs then c.boundary + (if c.maxTs == 0 then 0 else CountAt(lines, c.maxTs) - Min(CountAt(lines, c.maxTs), c.boundary))
                              else CountAt(lines, k.maxTs))
  {
    if lines != [] {
      var init, last := lines[..|lines| - 1], lines[|lines| - 1];
      ScanMax(c, init);
      ScanSeen(c, init);
      var k := Scan(c, init).0;
      forall i | 0 <= i < |lines|
        ensures lines[i].ts <= Advance(k, last).maxTs
      {
        if i < |init| { assert init[i] == lines[i]; }
      }
      if last.ts > k.maxTs {
        CountNone(init, last.ts);
      } else if k.maxTs > c.maxTs {
        var i :| 0 <= i < |init| && init[i].ts == k.maxTs;
        assert lines[i].ts == k.maxTs;
      }
    }
  }

  // ---------- logs and cursors ----------

  ghost predicate Sorted(log: seq<Line>) { forall i, j :: 0 <= i <= j < |log| ==> log[i].ts <= log[j].ts }

  // The cursor says: the first n lines of the log are kept.
  ghost predicate CursorAt(log: seq<Line>, n: nat, c: Cursor) {
    && n <= |log|
    && if n == 0 then c == ZERO else c.maxTs == log[n - 1].ts && c.boundary == CountAt(log[..n], c.maxTs)
  }

  // The daemon may skip only lines that are older than the cursor.
  ghost predicate SkipsOld(log: seq<Line>, k: nat, c: Cursor) {
    k <= |log| && forall i :: 0 <= i < k ==> log[i].ts < c.maxTs
  }

  // An answer from line k on holds every line after the first n, and does not cut into the
  // cursor's stamp while new lines share that stamp.
  ghost predicate Covers(log: seq<Line>, n: nat, c: Cursor, k: nat) {
    k <= n <= |log| && (SkipsOld(log, k, c) || n == |log| || log[n].ts > c.maxTs)
  }

  lemma CountSplit(log: seq<Line>, n: nat, t: nat)
    requires n <= |log|
    ensures CountAt(log, t) == CountAt(log[..n], t) + CountAt(log[n..], t)
  {
    assert log == log[..n] + log[n..];
    CountConcat(log[..n], log[n..], t);
  }

  // In a sorted log all lines of one stamp below the cursor lie in the first n.
  lemma CountSorted(log: seq<Line>, n: nat, c: Cursor, t: nat)
    requires Sorted(log) && CursorAt(log, n, c) && n > 0
    ensures t < c.maxTs ==> CountAt(log, t) == CountAt(log[..n], t)
    ensures t > c.maxTs ==> CountAt(log[..n], t) == 0
  {
    CountSplit(log, n, t);
    if t < c.maxTs { CountNone(log[n..], t); }
    if t > c.maxTs { CountNone(log[..n], t); }
  }

  // Per stamp, a poll that covers the new lines brings the stored lines up to the log
  // exactly, even when stdout and stderr arrive as two blocks.
  lemma PollCounts(log: seq<Line>, n: nat, c: Cursor, k: nat, response: seq<Line>, t: nat)
    requires Sorted(log) && Stamped(log) && CursorAt(log, n, c) && Covers(log, n, c, k) && t > 0
    requires Stamped(response) && forall u :: CountAt(response, u) == CountAt(log[k..], u)
    ensures CountAt(log[..n], t) + CountAt(Scan(c, response).1, t) == CountAt(log, t)
  {
    ScanKept(c, response, t);
    CountSplit(log, k, t);
    CountSplit(log, n, t);
    if n > 0 { CountSorted(log, n, c, t); }
    if t > c.maxTs || (t == c.maxTs && SkipsOld(log, k, c)) { CountNone(log[..k], t); }
    if t == c.maxTs && !SkipsOld(log, k, c) { CountNone(log[n..], t); }
  }

  // ... and leaves the cursor at the end of the log.
  lemma PollCursor(log: seq<Line>, n: nat, c: Cursor, k: nat, response: seq<Line>)
    requires Sorted(log) && Stamped(log) && CursorAt(log, n, c) && Covers(log, n, c, k)
    requires Stamped(response) && forall u :: CountAt(response, u) == CountAt(log[k..], u)
    ensures CursorAt(log, |log|, Advanced(Scan(c, response).0))
  {
    PollTop(log, n, c, k, response);
    assert log[..|log|] == log;
    if log != [] {
      var top := log[|log| - 1].ts;
      CountSplit(log, k, top);
      CountSplit(log, n, top);
      if top > c.maxTs || SkipsOld(log, k, c) { CountNone(log[..k], top); } else { CountNone(log[n..], top); }
    }
  }

  // The stamp of the new cursor is that of the last line, when the answer reaches to the
  // end of the log and is not empty without need.
  lemma PollTop(log: seq<Line>, n: nat, c: Cursor, k: nat, response: seq<Line>)
    requires Sorted(log) && Stamped(log) && CursorStamp(log, n, c) && k <= |log| && (k == |log| ==> n == |log|)
    requires Stamped(response) && forall u :: CountAt(response, u) == CountAt(log[k..], u)
    ensures var s := Scan(c, response).0;
            if log == [] then s.maxTs == 0 && s.cursor == ZERO
            else
              var top := log[|log| - 1].ts;
              && s.maxTs == top
              && s.boundary == if top > c.maxTs then CountAt(response, top)
                               else c.boundary + CountAt(response, top) - Min(CountAt(response, top), c.boundary)
  {
    ScanMax(c, response);
    ScanSeen(c, response);
    if log == [] {
      assert log[k..] == [];
      if response != [] {
        CountPresent(response, 0);
        assert false;
      }
    } else {
      var top := log[|log| - 1].ts;
      TopStamp(log, k, response, top);
      if k < |log| {
        assert log[k..][|log| - 1 - k] == log[|log| - 1];
        CountPresent(log[k..], |log| - 1 - k);
        CountFind(response, top);
      }
    }
  }

  // The stamp half of a cursor for the first n lines.
  ghost predicate CursorStamp(log: seq<Line>, n: nat, c: Cursor) {
    n <= |log| && if n == 0 then c == ZERO else c.maxTs == log[n - 1].ts
  }

  lemma {:induction false} CountPresent(lines: seq<Line>, i: nat)
    requires i < |lines|
    ensures CountAt(lines, lines[i].ts) > 0
  {
    if i < |lines| - 1 {
      assert lines[..|lines| - 1][i] == lines[i];
      CountPresent(lines[..|lines| - 1], i);
    }
  }

  lemma {:induction false} CountFind(lines: seq<Line>, t: nat)
    requires CountAt(lines, t) > 0
    ensures exists i :: 0 <= i < |lines| && lines[i].ts == t
  {
    if lines[|lines| - 1].ts != t {
      CountFind(lines[..|lines| - 1], t);
      var i :| 0 <= i < |lines| - 1 && lines[..|lines| - 1][i].ts == t;
      assert lines[i].ts == t;
    }
  }

  // Every stamp of the response occurs in the log, so none is beyond the last line.
  lemma TopStamp(log: seq<Line>, k: nat, response: seq<Line>, t: nat)
    requires Sorted(log) && log != [] && k <= |log|
    requires forall u :: CountAt(response, u) == CountAt(log[k..], u)
    ensures forall i :: 0 <= i < |response| ==> response[i].ts <= log[|log| - 1].ts
  {
    forall i | 0 <= i < |response|
      ensures response[i].ts <= log[|log| - 1].ts
    {
      CountPresent(response, i);
      CountFind(log[k..], response[i].ts);
      var j :| 0 <= j < |log[k..]| && log[k..][j].ts == response[i].ts;
      assert log[k + j].ts == response[i].ts;
    }
  }

  lemma ScanStep(c: Cursor, lines: seq<Line>, x: Line)
    ensures var (k, kept) := Scan(c, lines); Scan(c, lines + [x]) == (Advance(k, x), kept + NewLines(k, x))
  {
    assert (lines + [x])[..|lines|] == lines;
  }

  lemma ScanNext(c: Cursor, lines: seq<Line>, i: nat)
    requires i < |lines|
    ensures var (k, kept) := Scan(c, lines[..i]); Scan(c, lines[..i + 1]) == (Advance(k, lines[i]), kept + NewLines(k, lines[i]))
  {
    assert lines[..i + 1] == lines[..i] + [lines[i]];
    ScanStep(c, lines[..i], lines[i]);
  }

  lemma ScanOne(c: Cursor, x: Line)
    ensures Scan(c, [x]) == (Advance(Start(c), x), NewLines(Start(c), x))
  {
    ScanStep(c, [], x);
    assert [] + [x] == [x] && [] + NewLines(Start(c), x) == NewLines(Start(c), x);
  }

  // ---------- responses in log order ----------

  lemma CountMonotone(log: seq<Line>, a: nat, b: nat, t: nat)
    requires a <= b <= |log|
    ensures CountAt(log[..a], t) <= CountAt(log[..b], t)
  {
    assert log[..b][..a] == log[..a];
    CountSplit(log[..b], a, t);
  }

  lemma SkipsAtMostKept(log: seq<Line>, n: nat, c: Cursor, k: nat)
    requires Sorted(log) && CursorStamp(log, n, c) && SkipsOld(log, k, c)
    ensures k <= n
  {
    if k > 0 { assert log[k - 1].ts < c.maxTs; }
  }

  // With the lines k..m read, line m is kept exactly when it is not among the first n.
  lemma NextLine(log: seq<Line>, n: nat, c: Cursor, k: nat, m: nat, s: Keep)
    requires Sorted(log) && Stamped(log) && CursorAt(log, n, c) && Covers(log, n, c, k) && k <= m < |log|
    requires s.cursor == c && s.seen == if c.maxTs == 0 then 0 else Min(CountAt(log[k..m], c.maxTs), c.boundary)
    ensures NewLines(s, log[m]) == if m < n then [] else [Clip(log[m])]
  {
    if n > 0 {
      assert log[..m][..k] == log[..k] && log[..m][k..] == log[k..m];
      CountSplit(log[..m], k, c.maxTs);
      if m < n {
        assert log[m].ts <= log[n - 1].ts;
        assert log[..m + 1][..m] == log[..m];
        CountMonotone(log, m + 1, n, c.maxTs);
      } else if SkipsOld(log, k, c) {
        assert log[n - 1].ts <= log[m].ts;
        CountNone(log[..k], c.maxTs);
        CountMonotone(log, n, m, c.maxTs);
      } else {
        assert log[n].ts <= log[m].ts;
      }
    }
  }

  function KeptFrom(log: seq<Line>, n: nat, m: nat): seq<Line>
    requires m <= |log|
  {
    if m <= n then [] else ClipAll(log[n..m])
  }

  lemma KeptStep(log: seq<Line>, n: nat, m: nat)
    requires 0 < m <= |log|
    ensures KeptFrom(log, n, m) == KeptFrom(log, n, m - 1) + if m - 1 < n then [] else [Clip(log[m - 1])]
  {}

  // Lines before the cursor are all skipped, lines after it are all kept.
  lemma {:induction false} ScanInOrder(log: seq<Line>, n: nat, c: Cursor, k: nat, m: nat)
    requires Sorted(log) && Stamped(log) && CursorAt(log, n, c) && Covers(log, n, c, k) && k <= m <= |log|
    ensures Scan(c, log[k..m]).1 == KeptFrom(log, n, m)
    decreases m
  {
    if m == k {
      assert log[k..k] == [];
    } else {
      ScanInOrder(log, n, c, k, m - 1);
      ScanInOrderNext(log, n, c, k, m);
    }
  }

  lemma NewAt(log: seq<Line>, n: nat, c: Cursor, k: nat, m: nat)
    requires Sorted(log) && Stamped(log) && CursorAt(log, n, c) && Covers(log, n, c, k) && k <= m < |log|
    ensures NewLines(Scan(c, log[k..m]).0, log[m]) == if m < n then [] else [Clip(log[m])]
  {
    ScanSeen(c, log[k..m]);
    NextLine(log, n, c, k, m, Scan(c, log[k..m]).0);
  }

  lemma ScanSnoc(c: Cursor, lines: seq<Line>, i: nat, j: nat)
    requires i < j <= |lines|
    ensures Scan(c, lines[i..j]).1 == Scan(c, lines[i..j - 1]).1 + NewLines(Scan(c, lines[i..j - 1]).0, lines[j - 1])
  {
    assert lines[i..j] == lines[i..j - 1] + [lines[j - 1]];
    ScanStep(c, lines[i..j - 1], lines[j - 1]);
  }

  lemma ScanInOrderNext(log: seq<Line>, n: nat, c: Cursor, k: nat, m: nat)
    requires Sorted(log) && Stamped(log) && CursorAt(log, n, c) && Covers(log, n, c, k) && k < m <= |log|
    requires Scan(c, log[k..m - 1]).1 == KeptFrom(log, n, m - 1)
    ensures Scan(c, log[k..m]).1 == KeptFrom(log, n, m)
  {
    NewAt(log, n, c, k, m - 1);
    ScanSnoc(c, log, k, m);
    KeptStep(log, n, m);
  }

  // A poll that reads the response in log order up to line m leaves a cursor for the
  // first max(n, m) lines. The loop stops early only when a source answers with more
  // lines than it was asked for; the lines beyond m then stay new for the next poll.
  lemma CursorInOrder(log: seq<Line>, n: nat, c: Cursor, k: nat, m: nat)
    requires Sorted(log) && Stamped(log) && CursorAt(log, n, c) && SkipsOld(log, k, c) && k <= m <= |log|
    ensures CursorAt(log, if m <= n then n else m, Advanced(Scan(c, log[k..m]).0))
  {
    if n < m {
      var short := log[..m];
      SkipsAtMostKept(log, n, c, k);
      assert short[..n] == log[..n] && short[k..] == log[k..m];
      PollCursor(short, n, c, k, log[k..m]);
      assert short[..m] == log[..m];
    } else if n == 0 {
      assert log[k..m] == [];
    } else {
      ScanMax(c, log[k..m]);
      var s := Scan(c, log[k..m]).0;
      ScanSeen(c, log[k..m]);
      forall i | 0 <= i < |log[k..m]|
        ensures log[k..m][i].ts <= c.maxTs
      {
        assert log[k + i].ts <= log[n - 1].ts;
      }
      assert log[..m][k..] == log[k..m];
      CountSplit(log[..m], k, c.maxTs);
      CountMonotone(log, m, n, c.maxTs);
    }
  }
}

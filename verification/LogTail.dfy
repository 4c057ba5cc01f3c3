/**
 The limit on a poll: the collector asks the daemon for the newest MAX_LINES_PER_POLL
 lines, so a log that grew by more between two polls loses its older new lines.
 */
module LogTail {
  import opened LogCursor
  import opened LogStreams

  // The first line of an answer: the newest lines from line k on.
  function TailStart(log: seq<Line>, k: nat): (j: nat)
    requires k <= |log|
    ensures k <= j <= |log| && |log| - j <= MAX_LINES_PER_POLL
  {
    if |log| - k > MAX_LINES_PER_POLL then |log| - MAX_LINES_PER_POLL else k
  }

  // What the daemon answers when it may skip k lines that are older than the cursor.
  function Answer(log: seq<Line>, k: nat): seq<Line>
    requires k <= |log|
  {
    Blocks(log[TailStart(log, k)..])
  }

  // The newest lines reach back to line p: at most a full answer is new and, when the next
  // line shares the stamp of line p - 1, at most a full answer is not older than it.
  predicate Reaches(log: seq<Line>, p: nat) {
    && p <= |log|
    && (p == |log|
        || (|log| - p <= MAX_LINES_PER_POLL
            && (p == 0 || log[p].ts > log[p - 1].ts
                || |log| <= MAX_LINES_PER_POLL || log[|log| - MAX_LINES_PER_POLL - 1].ts < log[p - 1].ts)))
  }

  // Exactly then does an answer cover the new lines.
  lemma ReachesCovers(log: seq<Line>, p: nat, c: Cursor, k: nat)
    requires Sorted(log) && Stamped(log) && CursorAt(log, p, c) && SkipsOld(log, k, c)
    ensures Reaches(log, p) <==> Covers(log, p, c, TailStart(log, k))
  {
    SkipsAtMostKept(log, p, c, k);
    if p > 0 && |log| > MAX_LINES_PER_POLL {
      var cut := |log| - MAX_LINES_PER_POLL;
      if log[cut - 1].ts < log[p - 1].ts {
        assert forall i :: 0 <= i < cut ==> log[i].ts <= log[cut - 1].ts;
      }
    }
  }

  // ---------- lossy cursors ----------

  // A cursor after polls that may have lost lines: its boundary is still the number of
  // lines at its stamp, or else a full answer.
  ghost predicate CursorNear(log: seq<Line>, p: nat, c: Cursor) {
    && CursorStamp(log, p, c)
    && (p > 0 ==> Min(CountAt(log[..p], c.maxTs), MAX_LINES_PER_POLL) <= c.boundary <= CountAt(log[..p], c.maxTs))
  }

  function CountFrom(lines: seq<Line>, t: nat): nat { |Where(lines, From(t))| }

  lemma ScanLength(c: Cursor, lines: seq<Line>)
    requires CursorShape(c) && Stamped(lines)
    ensures |Scan(c, lines).1| == CountFrom(lines, c.maxTs) - Min(CountAt(lines, c.maxTs), c.boundary)
  {
    FreshClipped(c, lines);
    SkippedFirst(c, lines);
    FreshOrSkipped(c, lines);
    assert |multiset(Fresh(c, lines)) + multiset(Skipped(c, lines))| == |Fresh(c, lines)| + |Skipped(c, lines)|;
    assert |multiset(Where(lines, From(c.maxTs)))| == |Where(lines, From(c.maxTs))|;
  }

  lemma CountFromLimit(lines: seq<Line>, t: nat)
    ensures CountAt(lines, t) <= CountFrom(lines, t) <= |lines|
    decreases |lines|
  {
    if lines != [] { CountFromLimit(lines[..|lines| - 1], t); }
  }

  // In a sorted log, from line j up to p lie only lines at the cursor's stamp or older.
  lemma PriorAtOrOlder(log: seq<Line>, p: nat, c: Cursor, j: nat)
    requires Sorted(log) && CursorStamp(log, p, c) && j <= p
    ensures CountFrom(log[j..p], c.maxTs) == CountAt(log[j..p], c.maxTs)
  {
    if p > 0 {
      assert forall i :: 0 <= i < p ==> log[i].ts <= log[p - 1].ts;
      WhereSame(log[j..p], From(c.maxTs), At(c.maxTs));
    } else {
      assert log[j..p] == [];
    }
    WhereCount(log[j..p], c.maxTs);
  }

  lemma SplitAnswer(log: seq<Line>, p: nat, c: Cursor, j: nat)
    requires Sorted(log) && CursorStamp(log, p, c) && j <= p
    ensures CountFrom(log[j..], c.maxTs) == CountAt(log[j..p], c.maxTs) + |log| - p
    ensures CountAt(log[j..], c.maxTs) == CountAt(log[j..p], c.maxTs) + CountAt(log[p..], c.maxTs)
  {
    assert log[j..] == log[j..p] + log[p..];
    WhereConcat(log[j..p], log[p..], From(c.maxTs));
    CountConcat(log[j..p], log[p..], c.maxTs);
    WhereAll(log[p..], From(c.maxTs));
    PriorAtOrOlder(log, p, c, j);
  }

  lemma CountPrefix(log: seq<Line>, p: nat, j: nat, t: nat)
    requires j <= p <= |log|
    ensures CountAt(log[..p], t) == CountAt(log[..j], t) + CountAt(log[j..p], t)
  {
    assert log[..p] == log[..j] + log[j..p];
    CountConcat(log[..j], log[j..p], t);
  }

  lemma {:induction false} CountPositive(lines: seq<Line>, t: nat)
    ensures CountAt(lines, t) == 0 <==> forall i :: 0 <= i < |lines| ==> lines[i].ts != t
  {
    if CountAt(lines, t) == 0 {
      forall i | 0 <= i < |lines| ensures lines[i].ts != t { CountPresent(lines, i); }
    } else {
      CountFind(lines, t);
    }
  }

  // A poll never keeps more lines than are new.
  lemma PollAtMost(log: seq<Line>, p: nat, c: Cursor, k: nat)
    requires Sorted(log) && Stamped(log) && Named(log) && CursorNear(log, p, c) && SkipsOld(log, k, c)
    ensures |Scan(c, Answer(log, k)).1| <= |log| - p
    ensures TailStart(log, k) > p ==> |Scan(c, Answer(log, k)).1| < |log| - p
  {
    var j := TailStart(log, k);
    AnswerCounts(log, j, c.maxTs);
    ScanLength(c, Answer(log, k));
    CountFromLimit(log[j..], c.maxTs);
    if j <= p {
      SplitAnswer(log, p, c, j);
      CountPrefix(log, p, j, c.maxTs);
      CountFromLimit(log[j..p], c.maxTs);
    }
  }

  // It keeps all of them exactly when the answer reaches back to them.
  lemma PollKeepsAll(log: seq<Line>, p: nat, c: Cursor, k: nat)
    requires Sorted(log) && Stamped(log) && Named(log) && CursorAt(log, p, c) && SkipsOld(log, k, c)
    ensures |Scan(c, Answer(log, k)).1| == |log| - p <==> Reaches(log, p)
  {
    var j := TailStart(log, k);
    AnswerCounts(log, j, c.maxTs);
    ScanLength(c, Answer(log, k));
    ReachesCovers(log, p, c, k);
    if j <= p {
      SplitAnswer(log, p, c, j);
      CountPrefix(log, p, j, c.maxTs);
      CountPositive(log[..j], c.maxTs);
      CountPositive(log[p..], c.maxTs);
      CoversCounts(log, p, c, j);
    } else {
      PollAtMost(log, p, c, k);
    }
  }

  lemma CoversCounts(log: seq<Line>, p: nat, c: Cursor, j: nat)
    requires Sorted(log) && Stamped(log) && CursorAt(log, p, c) && j <= p
    ensures Covers(log, p, c, j) <==> CountAt(log[..j], c.maxTs) == 0 || CountAt(log[p..], c.maxTs) == 0
  {
    CountPositive(log[..j], c.maxTs);
    CountPositive(log[p..], c.maxTs);
    if p > 0 {
      assert forall i :: 0 <= i < j ==> log[i].ts <= log[p - 1].ts;
      if p < |log| { assert log[p..][0] == log[p]; }
      if CountAt(log[..j], c.maxTs) == 0 {
        forall i | 0 <= i < j ensures log[i].ts < c.maxTs { assert log[..j][i].ts != c.maxTs; }
      }
    }
  }

  // An answer has the counts of the lines it is cut from.
  lemma AnswerCounts(log: seq<Line>, j: nat, t: nat)
    requires j <= |log| && Stamped(log) && Named(log)
    ensures Stamped(Blocks(log[j..]))
    ensures CountAt(Blocks(log[j..]), t) == CountAt(log[j..], t)
    ensures CountFrom(Blocks(log[j..]), t) == CountFrom(log[j..], t)
  {
    BlocksPermute(log[j..]);
    StampedPermute(Blocks(log[j..]), log[j..]);
    CountPermute(Blocks(log[j..]), log[j..], t);
    WherePermute(Blocks(log[j..]), log[j..], From(t));
  }

  // The newest lines hold all lines of the last stamp, or are all of that stamp.
  lemma TailCount(log: seq<Line>, k: nat, c: Cursor)
    requires Sorted(log) && log != [] && SkipsOld(log, k, c) && c.maxTs <= log[|log| - 1].ts
    ensures var top, j := log[|log| - 1].ts, TailStart(log, k);
            Min(CountAt(log, top), MAX_LINES_PER_POLL) <= CountAt(log[j..], top) <= CountAt(log, top)
  {
    var top, j := log[|log| - 1].ts, TailStart(log, k);
    CountSplit(log, j, top);
    if j == k || log[j].ts < top {
      if j < |log| { assert forall i :: 0 <= i < j ==> log[i].ts < top; }
      CountNone(log[..j], top);
    } else {
      assert forall i :: 0 <= i < |log[j..]| ==> log[j..][i].ts == top;
      WhereAll(log[j..], At(top));
      WhereCount(log[j..], top);
    }
  }

  // The cursor a poll leaves is near the end of the log again.
  lemma PollNear(log: seq<Line>, p: nat, c: Cursor, k: nat)
    requires Sorted(log) && Stamped(log) && Named(log) && CursorNear(log, p, c) && SkipsOld(log, k, c)
    ensures CursorNear(log, |log|, Advanced(Scan(c, Answer(log, k)).0))
  {
    var j := TailStart(log, k);
    AnswerCounts(log, j, 0);
    forall t { AnswerCounts(log, j, t); }
    SkipsAtMostKept(log, p, c, k);
    PollTop(log, p, c, j, Answer(log, k));
    assert log[..|log|] == log;
    if log != [] {
      var top := log[|log| - 1].ts;
      TailCount(log, k, c);
      CountSplit(log, p, top);
    }
  }

  // The first poll of a longer log stores its newest lines only, and no later poll keeps a
  // line that is older than the newest of them.
  lemma OverflowLosesLines(log: seq<Line>, more: seq<Line>)
    requires Sorted(log) && Stamped(log) && OneStream(log) && |log| > 1000
    ensures var first := Scan(ZERO, Answer(log, 0));
            && first.1 == ClipAll(log[|log| - 1000..])
            && forall t: nat :: 0 < t < log[|log| - 1].ts && Stamped(more) ==> CountAt(Scan(Advanced(first.0), more).1, t) == 0
  {
    var cut := log[|log| - MAX_LINES_PER_POLL..];
    OneStreamInOrder(cut);
    ScanInOrder(cut, 0, ZERO, 0, |cut|);
    assert cut[0..|cut|] == cut;
    CursorInOrder(cut, 0, ZERO, 0, |cut|);
    var c := Advanced(Scan(ZERO, cut).0);
    forall t: nat | 0 < t < log[|log| - 1].ts && Stamped(more)
      ensures CountAt(Scan(c, more).1, t) == 0
    {
      ScanKept(c, more, t);
    }
  }
}

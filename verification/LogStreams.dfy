/**
 Two streams in one log: the daemon's answer lists stdout first and stderr second, so
 lines with the cursor's stamp may come back in another order than they were kept in.
 */
module LogStreams {
  import opened LogCursor

  // ---------- the order of an answer ----------

  function Block(lines: seq<Line>, stream: string): seq<Line> {
    if lines == [] then []
    else
      var last := lines[|lines| - 1];
      Block(lines[..|lines| - 1], stream) + if last.stream == stream then [last] else []
  }

  // stdout lines first, then stderr: the order `parseLogStream` produces.
  function Blocks(lines: seq<Line>): seq<Line> { Block(lines, "stdout") + Block(lines, "stderr") }

  ghost predicate Named(lines: seq<Line>) {
    forall i :: 0 <= i < |lines| ==> lines[i].stream == "stdout" || lines[i].stream == "stderr"
  }

  ghost predicate OneStream(lines: seq<Line>) {
    Named(lines) && forall i, j :: 0 <= i < |lines| && 0 <= j < |lines| ==> lines[i].stream == lines[j].stream
  }

  // The answer holds the same lines.
  lemma {:induction false} BlocksPermute(lines: seq<Line>)
    requires Named(lines)
    ensures multiset(Blocks(lines)) == multiset(lines)
  {
    if lines != [] {
      var init, last := lines[..|lines| - 1], lines[|lines| - 1];
      BlocksPermute(init);
      assert lines == init + [last];
      assert "stdout"[3] != "stderr"[3];
    }
  }

  lemma {:induction false} BlockOfOne(lines: seq<Line>, stream: string)
    requires forall i :: 0 <= i < |lines| ==> lines[i].stream == lines[0].stream
    ensures Block(lines, stream) == if lines != [] && lines[0].stream == stream then lines else []
  {
    if lines != [] {
      var init := lines[..|lines| - 1];
      assert lines == init + [lines[|lines| - 1]];
      BlockOfOne(init, stream);
    }
  }

  // All stdout lines come before all stderr lines.
  lemma BlocksOrder(lines: seq<Line>, i: nat, j: nat)
    requires i < j < |Blocks(lines)| && Blocks(lines)[i].stream == "stderr"
    ensures Blocks(lines)[j].stream == "stderr"
  {
    BlockStreams(lines, "stdout");
    BlockStreams(lines, "stderr");
    assert "stdout"[3] != "stderr"[3];
  }

  lemma {:induction false} BlockStreams(lines: seq<Line>, stream: string)
    ensures forall i :: 0 <= i < |Block(lines, stream)| ==> Block(lines, stream)[i].stream == stream
  {
    if lines != [] { BlockStreams(lines[..|lines| - 1], stream); }
  }

  // A single stream is answered in order.
  lemma OneStreamInOrder(lines: seq<Line>)
    requires OneStream(lines)
    ensures Blocks(lines) == lines
  {
    assert "stdout"[3] != "stderr"[3];
    BlockOfOne(lines, "stdout");
    BlockOfOne(lines, "stderr");
    if lines != [] && lines[0].stream == "stdout" { assert lines + [] == lines; }
  }

  // ---------- selections ----------

  function Where(lines: seq<Line>, p: Line -> bool): seq<Line> {
    if lines == [] then []
    else Where(lines[..|lines| - 1], p) + if p(lines[|lines| - 1]) then [lines[|lines| - 1]] else []
  }

  function At(t: nat): Line -> bool { (line: Line) => line.ts == t }

  function From(t: nat): Line -> bool { (line: Line) => line.ts >= t }

  lemma {:induction false} WhereConcat(a: seq<Line>, b: seq<Line>, p: Line -> bool)
    ensures Where(a + b, p) == Where(a, p) + Where(b, p)
  {
    if b == [] {
      assert a + b == a;
    } else {
      assert (a + b)[..|a + b| - 1] == a + b[..|b| - 1];
      WhereConcat(a, b[..|b| - 1], p);
    }
  }

  lemma {:induction false} WhereMultiset(lines: seq<Line>, p: Line -> bool, x: Line)
    ensures multiset(Where(lines, p))[x] == if p(x) then multiset(lines)[x] else 0
  {
    if lines != [] {
      var init, last := lines[..|lines| - 1], lines[|lines| - 1];
      WhereMultiset(init, p, x);
      assert lines == init + [last];
    }
  }

  lemma WherePermute(a: seq<Line>, b: seq<Line>, p: Line -> bool)
    requires multiset(a) == multiset(b)
    ensures multiset(Where(a, p)) == multiset(Where(b, p))
    ensures |Where(a, p)| == |Where(b, p)|
  {
    forall x
      ensures multiset(Where(a, p))[x] == multiset(Where(b, p))[x]
    {
      WhereMultiset(a, p, x);
      WhereMultiset(b, p, x);
    }
    assert |multiset(Where(a, p))| == |Where(a, p)| && |multiset(Where(b, p))| == |Where(b, p)|;
  }

  lemma {:induction false} WhereAll(lines: seq<Line>, p: Line -> bool)
    requires forall i :: 0 <= i < |lines| ==> p(lines[i])
    ensures Where(lines, p) == lines
  {
    if lines != [] {
      WhereAll(lines[..|lines| - 1], p);
      assert lines == lines[..|lines| - 1] + [lines[|lines| - 1]];
    }
  }

  lemma {:induction false} WhereSame(lines: seq<Line>, p: Line -> bool, q: Line -> bool)
    requires forall i :: 0 <= i < |lines| ==> (p(lines[i]) <==> q(lines[i]))
    ensures Where(lines, p) == Where(lines, q)
  {
    if lines != [] { WhereSame(lines[..|lines| - 1], p, q); }
  }

  lemma {:induction false} WhereNone(lines: seq<Line>, p: Line -> bool)
    requires forall i :: 0 <= i < |lines| ==> !p(lines[i])
    ensures Where(lines, p) == []
  {
    if lines != [] { WhereNone(lines[..|lines| - 1], p); }
  }

  lemma {:induction false} WhereCount(lines: seq<Line>, t: nat)
    ensures |Where(lines, At(t))| == CountAt(lines, t)
  {
    if lines != [] { WhereCount(lines[..|lines| - 1], t); }
  }

  lemma CountPermute(a: seq<Line>, b: seq<Line>, t: nat)
    requires multiset(a) == multiset(b)
    ensures CountAt(a, t) == CountAt(b, t)
  {
    WherePermute(a, b, At(t));
    WhereCount(a, t);
    WhereCount(b, t);
  }

  lemma StampedPermute(a: seq<Line>, b: seq<Line>)
    requires multiset(a) == multiset(b) && Stamped(b)
    ensures Stamped(a)
  {
    forall i | 0 <= i < |a|
      ensures a[i].ts > 0
    {
      assert a[i] in multiset(a);
      assert a[i] in multiset(b);
      var j :| 0 <= j < |b| && b[j] == a[i];
    }
  }

  // ---------- contents ----------

  // The lines a poll keeps, before their messages are clipped.
  function Fresh(c: Cursor, lines: seq<Line>): seq<Line> {
    if lines == [] then []
    else
      var init, last := lines[..|lines| - 1], lines[|lines| - 1];
      var k := Scan(c, init).0;
      Fresh(c, init) + if Older(k, last) || AtBoundary(k, last) then [] else [last]
  }

  // The lines a poll passes over because of the boundary count.
  function Skipped(c: Cursor, lines: seq<Line>): seq<Line> {
    if lines == [] then []
    else
      var init, last := lines[..|lines| - 1], lines[|lines| - 1];
      var k := Scan(c, init).0;
      Skipped(c, init) + if !Older(k, last) && AtBoundary(k, last) then [last] else []
  }

  lemma {:induction false} FreshClipped(c: Cursor, lines: seq<Line>)
    ensures Scan(c, lines).1 == ClipAll(Fresh(c, lines))
  {
    if lines != [] { FreshClipped(c, lines[..|lines| - 1]); }
  }

  // The boundary count passes over the first lines with the cursor's stamp.
  lemma {:induction false} SkippedFirst(c: Cursor, lines: seq<Line>)
    requires CursorShape(c) && Stamped(lines)
    ensures var at := Where(lines, At(c.maxTs));
            |at| == CountAt(lines, c.maxTs) && Skipped(c, lines) == at[..Min(|at|, c.boundary)]
  {
    WhereCount(lines, c.maxTs);
    if lines != [] {
      SkippedFirst(c, lines[..|lines| - 1]);
      ScanSeen(c, lines[..|lines| - 1]);
    }
  }

  lemma {:induction false} FreshOrSkipped(c: Cursor, lines: seq<Line>)
    requires CursorShape(c) && Stamped(lines)
    ensures multiset(Fresh(c, lines)) + multiset(Skipped(c, lines)) == multiset(Where(lines, From(c.maxTs)))
  {
    if lines != [] {
      FreshOrSkipped(c, lines[..|lines| - 1]);
      ScanSeen(c, lines[..|lines| - 1]);
    }
  }

  // The log from line k on, without the lines older than the cursor.
  lemma NotOlder(log: seq<Line>, n: nat, c: Cursor, k: nat)
    requires Sorted(log) && CursorAt(log, n, c) && SkipsOld(log, k, c) && k <= n
    ensures Where(log[k..], From(c.maxTs)) == Where(log[..n], At(c.maxTs)) + log[n..]
    ensures Where(log[k..], At(c.maxTs)) == Where(log[..n], At(c.maxTs)) + Where(log[n..], At(c.maxTs))
  {
    var prior, later := log[k..n], log[n..];
    assert log[k..] == prior + later;
    WhereConcat(prior, later, From(c.maxTs));
    WhereConcat(prior, later, At(c.maxTs));
    WhereAll(later, From(c.maxTs));
    PriorLines(log, n, c, k);
  }

  lemma PriorLines(log: seq<Line>, n: nat, c: Cursor, k: nat)
    requires Sorted(log) && CursorAt(log, n, c) && SkipsOld(log, k, c) && k <= n
    ensures Where(log[k..n], From(c.maxTs)) == Where(log[k..n], At(c.maxTs)) == Where(log[..n], At(c.maxTs))
  {
    assert log[..n] == log[..k] + log[k..n];
    WhereConcat(log[..k], log[k..n], At(c.maxTs));
    WhereNone(log[..k], At(c.maxTs));
    if n > 0 {
      assert forall i :: 0 <= i < n ==> log[i].ts <= log[n - 1].ts;
      WhereSame(log[k..n], From(c.maxTs), At(c.maxTs));
    }
  }

  // Whatever the order of an answer, a poll keeps exactly the new lines if and only if the
  // first lines it finds at the cursor's stamp are the ones already kept there.
  lemma KeepsNewLines(log: seq<Line>, n: nat, c: Cursor, k: nat, response: seq<Line>)
    requires Sorted(log) && Stamped(log) && CursorAt(log, n, c) && SkipsOld(log, k, c)
    requires multiset(response) == multiset(log[k..])
    ensures var at := Where(response, At(c.maxTs));
            multiset(Fresh(c, response)) == multiset(log[n..])
              <==> multiset(at[..Min(|at|, c.boundary)]) == multiset(Where(log[..n], At(c.maxTs)))
  {
    SkipsAtMostKept(log, n, c, k);
    StampedPermute(response, log[k..]);
    NotOlder(log, n, c, k);
    WherePermute(response, log[k..], From(c.maxTs));
    SkippedFirst(c, response);
    FreshOrSkipped(c, response);
    Cancel(multiset(Fresh(c, response)), multiset(Skipped(c, response)), multiset(Where(log[..n], At(c.maxTs))), multiset(log[n..]));
  }

  lemma Cancel(left: multiset<Line>, skipped: multiset<Line>, kept: multiset<Line>, added: multiset<Line>)
    requires left + skipped == kept + added
    ensures left == added <==> skipped == kept
  {
    if left == added {
      forall x ensures skipped[x] == kept[x] { assert (left + skipped)[x] == (kept + added)[x]; }
    }
    if skipped == kept {
      forall x ensures left[x] == added[x] { assert (left + skipped)[x] == (kept + added)[x]; }
    }
  }

  // In particular when all lines with the cursor's stamp belong to one stream.
  lemma OneStreamAtStamp(log: seq<Line>, n: nat, c: Cursor, k: nat)
    requires Sorted(log) && Stamped(log) && Named(log) && CursorAt(log, n, c) && SkipsOld(log, k, c)
    requires OneStream(Where(log[k..], At(c.maxTs)))
    ensures multiset(Fresh(c, Blocks(log[k..]))) == multiset(log[n..])
  {
    var response, at := Blocks(log[k..]), Where(log[k..], At(c.maxTs));
    BlocksPermute(log[k..]);
    KeepsNewLines(log, n, c, k, response);
    BlocksWhere(log[k..], At(c.maxTs));
    OneStreamInOrder(at);
    SkipsAtMostKept(log, n, c, k);
    NotOlder(log, n, c, k);
    WhereCount(log[..n], c.maxTs);
    if n == 0 { WhereNone(log[k..], At(0)); }
  }

  lemma {:induction false} BlockWhere(lines: seq<Line>, p: Line -> bool, stream: string)
    ensures Where(Block(lines, stream), p) == Block(Where(lines, p), stream)
  {
    if lines != [] {
      var init, last := lines[..|lines| - 1], lines[|lines| - 1];
      BlockWhere(init, p, stream);
      WhereConcat(Block(init, stream), if last.stream == stream then [last] else [], p);
      BlockConcat(Where(init, p), if p(last) then [last] else [], stream);
      WhereOne(last, p);
    }
  }

  lemma WhereOne(x: Line, p: Line -> bool)
    ensures Where([x], p) == if p(x) then [x] else []
  {
    assert [x][..0] == [];
  }

  lemma BlockConcat(a: seq<Line>, b: seq<Line>, stream: string)
    requires |b| <= 1
    ensures Block(a + b, stream) == Block(a, stream) + Block(b, stream)
  {
    if b == [] {
      assert a + b == a;
    } else {
      assert (a + b)[..|a + b| - 1] == a && b[..0] == [];
    }
  }

  lemma BlocksWhere(lines: seq<Line>, p: Line -> bool)
    ensures Where(Blocks(lines), p) == Blocks(Where(lines, p))
  {
    WhereConcat(Block(lines, "stdout"), Block(lines, "stderr"), p);
    BlockWhere(lines, p, "stdout");
    BlockWhere(lines, p, "stderr");
  }

  // Contents are not safe across two streams: a new stdout line with the stamp of a
  // kept stderr line is skipped in its place, and the stderr line is stored twice.
  lemma TwoStreamsSwapContents()
    ensures var err, out := Line(5, "stderr", "e"), Line(5, "stdout", "o");
            var first := Scan(ZERO, [err]);
            var second := Scan(Advanced(first.0), [out, err]);
            first.1 + second.1 == [err, err]
  {
    var err, out := Line(5, "stderr", "e"), Line(5, "stdout", "o");
    assert [out, err][..1] == [out];
    ScanOne(ZERO, err);
    var c := Cursor(5, 1);
    ScanOne(c, out);
    assert Scan(c, [out]) == (Keep(c, 5, 1, 1), []);
  }
}

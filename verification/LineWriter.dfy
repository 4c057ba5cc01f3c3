/** The line splitter of a deploy: streamed output in, complete lines out. */
module LineWriter {

  // ---------- lines of a whole stream ----------

  // What follows the last newline.
  function TailOf(s: string): string {
    if s == "" || s[|s| - 1] == '\n' then "" else TailOf(s[..|s| - 1]) + [s[|s| - 1]]
  }

  // The complete lines, without their newlines.
  function LinesOf(s: string): seq<string> {
    if s == "" then []
    else if s[|s| - 1] == '\n' then LinesOf(s[..|s| - 1]) + [TailOf(s[..|s| - 1])]
    else LinesOf(s[..|s| - 1])
  }

  predicate Plain(s: string) { forall i :: 0 <= i < |s| ==> s[i] != '\n' }

  function Unlines(lines: seq<string>): string {
    if lines == [] then "" else Unlines(lines[..|lines| - 1]) + lines[|lines| - 1] + "\n"
  }

  lemma Regroup(a: string, b: string, c: string)
    ensures a + (b + c) == (a + b) + c
  {}

  lemma UnlinesSnoc(lines: seq<string>, line: string)
    ensures Unlines(lines + [line]) == Unlines(lines) + line + "\n"
  {
    assert (lines + [line])[..|lines|] == lines;
  }

  // The lines and the tail spell the stream.
  lemma {:induction false} LinesSpell(s: string)
    ensures Unlines(LinesOf(s)) + TailOf(s) == s
  {
    if s != "" {
      var init, c := s[..|s| - 1], s[|s| - 1];
      LinesSpell(init);
      assert init + [c] == s;
      if c == '\n' {
        UnlinesSnoc(LinesOf(init), TailOf(init));
        assert s + "" == s;
      } else {
        Regroup(Unlines(LinesOf(init)), TailOf(init), [c]);
      }
    }
  }

  // Neither the lines nor the tail hold a newline.
  lemma {:induction false} LinesPlain(s: string)
    ensures Plain(TailOf(s)) && forall i :: 0 <= i < |LinesOf(s)| ==> Plain(LinesOf(s)[i])
  {
    if s != "" { LinesPlain(s[..|s| - 1]); }
  }

  lemma {:induction false} PlainAppends(s: string, t: string)
    requires Plain(t)
    ensures LinesOf(s + t) == LinesOf(s) && TailOf(s + t) == TailOf(s) + t
  {
    if t == "" {
      assert s + t == s;
    } else {
      var init := t[..|t| - 1];
      assert (s + t)[..|s + t| - 1] == s + init;
      PlainAppends(s, init);
      assert TailOf(s) + init + [t[|t| - 1]] == TailOf(s) + t;
    }
  }

  lemma LineAppends(s: string, t: string)
    requires Plain(t)
    ensures LinesOf(s + t + "\n") == LinesOf(s) + [TailOf(s) + t] && TailOf(s + t + "\n") == ""
  {
    PlainAppends(s, t);
    assert (s + t + "\n")[..|s + t|] == s + t;
  }

  lemma {:induction false} UnlinesUnique(lines: seq<string>)
    requires forall i :: 0 <= i < |lines| ==> Plain(lines[i])
    ensures LinesOf(Unlines(lines)) == lines && TailOf(Unlines(lines)) == ""
  {
    if lines != [] {
      var init, line := lines[..|lines| - 1], lines[|lines| - 1];
      UnlinesUnique(init);
      LineAppends(Unlines(init), line);
      Padded(line);
      assert init + [line] == lines;
    }
  }

  // Any way of spelling the stream as plain lines and a plain tail is this one.
  lemma LinesUnique(s: string, lines: seq<string>, tail: string)
    requires Unlines(lines) + tail == s && Plain(tail) && forall i :: 0 <= i < |lines| ==> Plain(lines[i])
    ensures lines == LinesOf(s) && tail == TailOf(s)
  {
    UnlinesUnique(lines);
    PlainAppends(Unlines(lines), tail);
    Padded(tail);
  }

  // ---------- chunks ----------

  // The lines and the buffer after one write of `data`: cut at the first newline, repeat.
  function Drained(lines: seq<string>, buf: string, from: nat): (r: (seq<string>, string))
    requires from <= |buf| && Plain(buf[..from])
    decreases |buf|, |buf| - from
  {
    if from == |buf| then (lines, buf)
    else if buf[from] == '\n' then Drained(lines + [buf[..from]], buf[from + 1..], 0)
    else Drained(lines, buf, from + 1)
  }

  // The lines and the buffer after a list of writes.
  function Writes(chunks: seq<string>): (seq<string>, string) {
    if chunks == [] then ([], "")
    else
      var before := Writes(chunks[..|chunks| - 1]);
      Drained(before.0, before.1 + chunks[|chunks| - 1], 0)
  }

  function Stream(chunks: seq<string>): string {
    if chunks == [] then "" else Stream(chunks[..|chunks| - 1]) + chunks[|chunks| - 1]
  }

  lemma Padded(t: string)
    ensures "" + t == t && t[..|t|] == t
  {}

  lemma Cut(head: string, buf: string, from: nat)
    requires from < |buf| && buf[from] == '\n'
    ensures head + buf[..from] + "\n" + buf[from + 1..] == head + buf
  {
    assert buf[..from] + "\n" + buf[from + 1..] == buf;
  }

  // Draining a buffer behind the lines of an already cut stream.
  lemma {:induction false} DrainedIs(head: string, buf: string, from: nat)
    requires from <= |buf| && Plain(buf[..from]) && TailOf(head) == ""
    ensures Drained(LinesOf(head), buf, from) == (LinesOf(head + buf), TailOf(head + buf))
    decreases |buf|, |buf| - from
  {
    if from == |buf| {
      Padded(buf);
      PlainAppends(head, buf);
    } else if buf[from] == '\n' {
      var line, rest := buf[..from], buf[from + 1..];
      LineAppends(head, line);
      Padded(line);
      DrainedIs(head + line + "\n", rest, 0);
      Cut(head, buf, from);
    } else {
      DrainedIs(head, buf, from + 1);
    }
  }

  // The end of the last complete line.
  lemma {:induction false} CutPoint(s: string) returns (head: string)
    ensures s == head + TailOf(s) && TailOf(head) == "" && LinesOf(head) == LinesOf(s)
  {
    if s == "" || s[|s| - 1] == '\n' {
      head := s;
      assert s == s + "";
    } else {
      head := CutPoint(s[..|s| - 1]);
      assert head + (TailOf(s[..|s| - 1]) + [s[|s| - 1]]) == s;
    }
  }

  // However the stream is cut into writes, lines and buffer depend only on the stream.
  lemma {:induction false} ChunksDoNotMatter(chunks: seq<string>)
    ensures Writes(chunks) == (LinesOf(Stream(chunks)), TailOf(Stream(chunks)))
  {
    if chunks != [] {
      var init, data := chunks[..|chunks| - 1], chunks[|chunks| - 1];
      ChunksDoNotMatter(init);
      WriteAppends(Stream(init), data);
    }
  }

  lemma WriteAppends(s: string, data: string)
    ensures Drained(LinesOf(s), TailOf(s) + data, 0) == (LinesOf(s + data), TailOf(s + data))
  {
    var head := CutPoint(s);
    DrainedIs(head, TailOf(s) + data, 0);
    Regroup(head, TailOf(s), data);
  }

  // ---------- the writer ----------

  class Writer {
    var emitted: seq<string>
    var buf: string
    // Everything written; a flushed partial line counts as ended.
    ghost var stream: string

    ghost predicate Valid()
      reads this
    {
      emitted == LinesOf(stream) && buf == TailOf(stream)
    }

    constructor ()
      ensures Valid() && stream == ""
    {
      emitted, buf, stream := [], "", "";
    }

    method Write(data: string) returns (n: nat)
      requires Valid()
      modifies this
      ensures Valid() && stream == old(stream) + data && n == |data|
    {
      WriteAppends(stream, data);
      stream := stream + data;
      buf := buf + data;
      ghost var all := (LinesOf(stream), TailOf(stream));
      while true
        invariant stream == old(stream) + data
        invariant Drained(emitted, buf, 0) == all
        decreases |buf|
      {
        var i := IndexByte(buf, '\n');
        if i < 0 {
          SkipPlain(emitted, buf, 0, |buf|);
          break;
        }
        SkipPlain(emitted, buf, 0, i);
        emitted := emitted + [buf[..i]];
        buf := buf[i + 1..];
      }
      return |data|;
    }

    method Flush()
      requires Valid()
      modifies this
      ensures Valid() && buf == ""
      ensures emitted == LinesOf(old(stream)) + if TailOf(old(stream)) == "" then [] else [TailOf(old(stream))]
      ensures stream == if TailOf(old(stream)) == "" then old(stream) else old(stream) + "\n"
    {
      if |buf| > 0 {
        LineAppends(stream, "");
        assert stream + "" == stream && TailOf(stream) + "" == TailOf(stream);
        stream := stream + "\n";
        emitted := emitted + [buf];
        buf := "";
      }
    }
  }

  // The drain scans plain characters without effect.
  lemma {:induction false} SkipPlain(lines: seq<string>, buf: string, from: nat, i: nat)
    requires from <= i <= |buf| && Plain(buf[..i]) && Plain(buf[..from])
    ensures Drained(lines, buf, from) == Drained(lines, buf, i)
    decreases i - from
  {
    if from < i {
      assert buf[..i][from] == buf[from];
      assert Plain(buf[..from + 1]);
      SkipPlain(lines, buf, from + 1, i);
    }
  }

  // bytes.IndexByte
  method IndexByte(s: string, c: char) returns (i: int)
    ensures i < 0 ==> forall k :: 0 <= k < |s| ==> s[k] != c
    ensures i >= 0 ==> i < |s| && s[i] == c && forall k :: 0 <= k < i ==> s[k] != c
  {
    i := 0;
    while i < |s|
      invariant 0 <= i <= |s| && forall k :: 0 <= k < i ==> s[k] != c
    {
      if s[i] == c { return; }
      i := i + 1;
    }
    i := -1;
  }
}

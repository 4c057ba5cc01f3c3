/** The nginx timing tailer: complete lines of a file, read from a saved offset. */
module TimingTail {
  import opened Common
  import opened StoredTime

  const MAX_RECORDS: nat := 10_000
  const MAX_LINE: nat := 65_536

  datatype Record = Record(
    at: Moment, verb: string, route: string, upstream: string, status: int,
    duration: real, connect: real, header: real, response: real, bytesSent: nat, requestBytes: nat)

  // What the parser guarantees of every line it accepts.
  type Observation = o: Record | 100 <= o.status <= 599 && o.verb != "" && o.route != "" && o.upstream != ""
    witness Record(0, "GET", "other", "none", 200, 0.0, 0.0, 0.0, 0.0, 0, 0)

  // The line parser; JSON decoding itself is not modelled.
  type Parser = string -> Option<Observation>

  // ---------- the records of a file ----------

  predicate Quiet(file: string, a: nat, b: nat)
    requires b <= |file|
  {
    forall i :: a <= i < b ==> file[i] != '\n'
  }

  // Where the line holding position n begins.
  function LineStart(file: string, n: nat): nat
    requires n <= |file|
    ensures LineStart(file, n) <= n
  {
    if n == 0 || file[n - 1] == '\n' then n else LineStart(file, n - 1)
  }

  // The observation of the complete line from a to e, newline included.
  function LineValue(file: string, a: nat, e: nat, parse: Parser): Option<Observation>
    requires a < e <= |file|
  {
    if e - a > MAX_LINE then None else parse(file[a..e - 1])
  }

  function Append(observations: seq<Observation>, o: Option<Observation>): seq<Observation> {
    if o.None? then observations else observations + [o.value]
  }

  // The well-formed complete lines among the first n bytes.
  function Good(file: string, n: nat, parse: Parser): seq<Observation>
    requires n <= |file|
  {
    if n == 0 then []
    else if file[n - 1] != '\n' then Good(file, n - 1, parse)
    else Append(Good(file, n - 1, parse), LineValue(file, LineStart(file, n - 1), n, parse))
  }

  function Newlines(file: string, n: nat): nat
    requires n <= |file|
  {
    if n == 0 then 0 else Newlines(file, n - 1) + if file[n - 1] == '\n' then 1 else 0
  }

  // The start of the file or just after a newline.
  predicate Boundary(file: string, n: nat) { n <= |file| && (n == 0 || file[n - 1] == '\n') }

  // The end of the first complete line at or after `pos`, or nothing.
  function LineEnd(file: string, pos: nat): (e: Option<nat>)
    requires pos <= |file|
    ensures e.Some? ==> pos < e.value <= |file| && file[e.value - 1] == '\n' && Quiet(file, pos, e.value - 1)
    ensures e.None? ==> Quiet(file, pos, |file|)
    decreases |file| - pos
  {
    if pos == |file| then None
    else if file[pos] == '\n' then Some(pos + 1)
    else
      LineEnd(file, pos + 1)
  }

  // Where a read of at most k lines stops.
  function ReadEnd(file: string, pos: nat, k: nat): (e: nat)
    requires pos <= |file|
    ensures pos <= e <= |file|
    decreases k
  {
    if k == 0 || LineEnd(file, pos).None? then pos else ReadEnd(file, LineEnd(file, pos).value, k - 1)
  }

  // Bytes without a newline complete no line.
  lemma {:induction false} QuietBytes(file: string, a: nat, b: nat, parse: Parser)
    requires a <= b <= |file| && Quiet(file, a, b) && Boundary(file, a)
    ensures Good(file, b, parse) == Good(file, a, parse)
    ensures Newlines(file, b) == Newlines(file, a)
    ensures LineStart(file, b) == a
  {
    if a < b {
      QuietBytes(file, a, b - 1, parse);
    }
  }

  // One complete line adds its observation.
  lemma OneLine(file: string, pos: nat, parse: Parser)
    requires Boundary(file, pos) && LineEnd(file, pos).Some?
    ensures var e := LineEnd(file, pos).value;
            && Good(file, e, parse) == Append(Good(file, pos, parse), LineValue(file, pos, e, parse))
            && Newlines(file, e) == Newlines(file, pos) + 1
            && Boundary(file, e)
  {
    QuietBytes(file, pos, LineEnd(file, pos).value - 1, parse);
  }

  // Appending changes nothing before the old end.
  lemma {:induction false} AppendKeeps(file: string, more: string, n: nat, parse: Parser)
    requires n <= |file|
    ensures Good(file + more, n, parse) == Good(file, n, parse)
    ensures Newlines(file + more, n) == Newlines(file, n)
    ensures LineStart(file + more, n) == LineStart(file, n)
  {
    if n > 0 {
      AppendKeeps(file, more, n - 1, parse);
      var a := LineStart(file, n - 1);
      assert (file + more)[a..n - 1] == file[a..n - 1];
    }
  }

  lemma LineEndKeeps(file: string, more: string, pos: nat)
    requires pos <= |file| && LineEnd(file, pos).Some?
    ensures LineEnd(file + more, pos) == LineEnd(file, pos)
    decreases |file| - pos
  {
    if file[pos] != '\n' { LineEndKeeps(file, more, pos + 1); }
  }

  // Reads never shrink as the file grows.
  lemma {:induction false} ReadEndGrows(file: string, more: string, pos: nat, k: nat)
    requires pos <= |file|
    ensures ReadEnd(file, pos, k) <= ReadEnd(file + more, pos, k)
    decreases k
  {
    if k > 0 && LineEnd(file, pos).Some? {
      LineEndKeeps(file, more, pos);
      ReadEndGrows(file, more, LineEnd(file, pos).value, k - 1);
    }
  }

  lemma OneNewline(file: string, pos: nat)
    requires Boundary(file, pos) && LineEnd(file, pos).Some?
    ensures Newlines(file, LineEnd(file, pos).value) == Newlines(file, pos) + 1 && Boundary(file, LineEnd(file, pos).value)
  {
    QuietNewlines(file, pos, LineEnd(file, pos).value - 1);
  }

  lemma {:induction false} QuietNewlines(file: string, a: nat, b: nat)
    requires a <= b <= |file| && Quiet(file, a, b)
    ensures Newlines(file, b) == Newlines(file, a)
  {
    if a < b { QuietNewlines(file, a, b - 1); }
  }

  // A read takes at most k lines.
  lemma {:induction false} ReadAtMost(file: string, pos: nat, k: nat)
    requires Boundary(file, pos)
    ensures Newlines(file, ReadEnd(file, pos, k)) <= Newlines(file, pos) + k
    decreases k
  {
    if k > 0 && LineEnd(file, pos).Some? {
      var e := LineEnd(file, pos).value;
      OneNewline(file, pos);
      ReadAtMost(file, e, k - 1);
    }
  }

  lemma {:induction false} ReadEndBoundary(file: string, pos: nat, k: nat)
    requires Boundary(file, pos)
    ensures Boundary(file, ReadEnd(file, pos, k))
    decreases k
  {
    if k > 0 && LineEnd(file, pos).Some? {
      OneNewline(file, pos);
      ReadEndBoundary(file, LineEnd(file, pos).value, k - 1);
    }
  }

  lemma {:induction false} GoodGrows(file: string, a: nat, b: nat, parse: Parser)
    requires a <= b <= |file|
    ensures |Good(file, a, parse)| <= |Good(file, b, parse)|
    ensures Good(file, b, parse)[..|Good(file, a, parse)|] == Good(file, a, parse)
  {
    if a < b { GoodGrows(file, a, b - 1, parse); }
  }

  // ---------- the tailer ----------

  // ReadSlice on a buffer of MAX_LINE bytes: up to a newline, a full buffer or the end.
  method ReadSlice(file: string, pos: nat) returns (n: nat, complete: bool, full: bool)
    requires pos <= |file|
    ensures pos + n <= |file| && n <= MAX_LINE
    ensures complete ==> n > 0 && file[pos + n - 1] == '\n' && Quiet(file, pos, pos + n - 1)
    ensures !complete ==> Quiet(file, pos, pos + n) && (full <==> n == MAX_LINE)
    ensures !complete && !full ==> pos + n == |file|
  {
    n, complete := 0, false;
    while !complete && n < MAX_LINE && pos + n < |file|
      invariant pos + n <= |file| && n <= MAX_LINE
      invariant complete ==> n > 0 && file[pos + n - 1] == '\n' && Quiet(file, pos, pos + n - 1)
      invariant !complete ==> Quiet(file, pos, pos + n)
      decreases |file| - pos - n
    {
      complete := file[pos + n] == '\n';
      n := n + 1;
    }
    full := !complete && n == MAX_LINE;
  }

  lemma NextLineEnd(file: string, pos: nat, e: nat)
    requires pos < e <= |file| && file[e - 1] == '\n' && Quiet(file, pos, e - 1)
    ensures LineEnd(file, pos) == Some(e)
    decreases e - pos
  {
    if pos < e - 1 {
      NextLineEnd(file, pos + 1, e);
    }
  }

  // The next complete line; none when the file ends before its newline. A line longer than
  // the buffer, newline included, is skipped whole.
  method ReadTimingLine(file: string, pos: nat) returns (line: Option<string>, bytesRead: nat, oversized: bool, eof: bool)
    requires pos <= |file|
    ensures eof <==> LineEnd(file, pos).None?
    ensures !eof ==> LineEnd(file, pos) == Some(pos + bytesRead)
    ensures !eof ==> (oversized <==> bytesRead > 65_536)
    ensures !eof ==> line == if oversized then None else Some(file[pos..pos + bytesRead - 1])
  {
    line, bytesRead, oversized := None, 0, false;
    while true
      invariant pos + bytesRead <= |file| && Quiet(file, pos, pos + bytesRead)
      invariant if oversized then bytesRead >= MAX_LINE else bytesRead == 0
      decreases |file| - pos - bytesRead
    {
      var n, complete, full := ReadSlice(file, pos + bytesRead);
      bytesRead := bytesRead + n;
      if complete {
        NextLineEnd(file, pos, pos + bytesRead);
        eof := false;
        if !oversized { line := Some(file[pos..pos + bytesRead - 1]); }
        return;
      }
      if full {
        oversized := true;
      } else {
        eof := true;
        return;
      }
    }
  }

  // Every line from a to b became an observation, in order, or a drop.
  ghost predicate Consumed(file: string, a: nat, b: nat, observations: seq<Observation>, drops: nat, parse: Parser) {
    && a <= b <= |file|
    && Good(file, b, parse) == Good(file, a, parse) + observations
    && |observations| + drops == Newlines(file, b) - Newlines(file, a)
  }

  lemma ConsumeLine(file: string, a: nat, b: nat, observations: seq<Observation>, drops: nat, parse: Parser)
    requires Consumed(file, a, b, observations, drops, parse) && Boundary(file, b) && LineEnd(file, b).Some?
    ensures var e := LineEnd(file, b).value;
            var o := LineValue(file, b, e, parse);
            Boundary(file, e) && Consumed(file, a, e, Append(observations, o), if o.None? then drops + 1 else drops, parse)
  {
    OneLine(file, b, parse);
  }

  lemma ReadStep(file: string, a: nat, b: nat, k: nat, observations: seq<Observation>, drops: nat, parse: Parser)
    requires Consumed(file, a, b, observations, drops, parse) && Boundary(file, b) && LineEnd(file, b).Some? && k > 0
    ensures var e := LineEnd(file, b).value;
            var o := LineValue(file, b, e, parse);
            && Boundary(file, e) && ReadEnd(file, b, k) == ReadEnd(file, e, k - 1)
            && (o.None? ==> Consumed(file, a, e, observations, drops + 1, parse))
            && (o.Some? ==> Consumed(file, a, e, observations + [o.value], drops, parse))
  {
    ConsumeLine(file, a, b, observations, drops, parse);
  }

  // One line, parsed; an oversized line and one that does not parse are drops.
  method ReadRecord(file: string, pos: nat, parse: Parser) returns (o: Option<Observation>, bytesRead: nat, eof: bool)
    requires pos <= |file|
    ensures eof <==> LineEnd(file, pos).None?
    ensures !eof ==> LineEnd(file, pos) == Some(pos + bytesRead) && o == LineValue(file, pos, pos + bytesRead, parse)
  {
    var line, oversized;
    line, bytesRead, oversized, eof := ReadTimingLine(file, pos);
    o := if eof || oversized then None else parse(line.value);
  }

  method ReadLines(file: string, start: nat, limit: nat, parse: Parser) returns (observations: seq<Observation>, end: nat, drops: nat)
    requires Boundary(file, start)
    ensures end == ReadEnd(file, start, limit)
    ensures Consumed(file, start, end, observations, drops, parse)
  {
    observations, end, drops := [], start, 0;
    for i := 0 to limit
      invariant Boundary(file, end)
      invariant ReadEnd(file, start, limit) == ReadEnd(file, end, limit - i)
      invariant Consumed(file, start, end, observations, drops, parse)
    {
      var o, bytesRead, eof := ReadRecord(file, end, parse);
      if eof { break; }
      ReadStep(file, start, end, limit - i, observations, drops, parse);
      end := end + bytesRead;
      if o.None? { drops := drops + 1; } else { observations := observations + [o.value]; }
    }
  }

  datatype Cursor = Cursor(identity: string, offset: nat, dropped: nat)

  // Where a read begins: a replaced or shrunken file is read from its start, and each is
  // counted as one drop.
  function Rebased(c: Cursor, identity: string, size: nat): (r: Cursor)
    ensures r.identity == identity && r.offset <= size
  {
    var moved := c.identity != "" && c.identity != identity;
    var c1 := Cursor(identity, if moved then 0 else c.offset, c.dropped + if moved then 1 else 0);
    if size < c1.offset then c1.(offset := 0, dropped := c1.dropped + 1) else c1
  }

  class Tailer {
    var cursor: Cursor

    constructor (c: Cursor)
      ensures cursor == c
    {
      cursor := c;
    }

    // At most MAX_RECORDS complete lines from the cursor on; an incomplete last line stays
    // unread.
    method Read(identity: string, file: string, parse: Parser) returns (observations: seq<Observation>, next: Cursor)
      requires Boundary(file, Rebased(cursor, identity, |file|).offset)
      ensures var start := Rebased(cursor, identity, |file|);
              && next.identity == identity && next.dropped >= start.dropped
              && next.offset == ReadEnd(file, start.offset, MAX_RECORDS)
              && Consumed(file, start.offset, next.offset, observations, next.dropped - start.dropped, parse)
              && Newlines(file, next.offset) <= Newlines(file, start.offset) + 10_000
    {
      next := cursor;
      if next.identity != "" && next.identity != identity {
        next := next.(offset := 0, dropped := next.dropped + 1);
      }
      next := next.(identity := identity);
      if |file| < next.offset {
        next := next.(offset := 0, dropped := next.dropped + 1);
      }
      ReadAtMost(file, next.offset, MAX_RECORDS);
      var end, drops;
      observations, end, drops := ReadLines(file, next.offset, MAX_RECORDS, parse);
      next := next.(offset := end, dropped := next.dropped + drops);
    }

    method Acknowledge(c: Cursor)
      modifies this
      ensures cursor == c
    {
      cursor := c;
    }
  }
}

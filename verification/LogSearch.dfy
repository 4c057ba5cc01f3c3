/**
 Level search over stored log lines: pages of the base filter, newest first, matched
 against a level set that SQL cannot express.
 */
module LogSearch {

  const CHUNK: nat := 1000
  const MAX_CHUNKS: nat := 20

  datatype LogRow = LogRow(id: nat, service: string, stream: string, text: string, ts: nat)

  // The rows a search reads from, newest first; ids start at 1 and never repeat.
  ghost predicate NewestFirst(rows: seq<LogRow>) {
    && (forall i :: 0 <= i < |rows| ==> rows[i].id > 0)
    && (forall i, j :: 0 <= i < j < |rows| ==> rows[i].id > rows[j].id)
  }

  function Filter(rows: seq<LogRow>, p: LogRow -> bool): seq<LogRow> {
    if rows == [] then []
    else if p(rows[|rows| - 1]) then Filter(rows[..|rows| - 1], p) + [rows[|rows| - 1]]
    else Filter(rows[..|rows| - 1], p)
  }

  function Take<T>(xs: seq<T>, n: nat): seq<T> { if |xs| <= n then xs else xs[..n] }

  // LogStore.Search: filter, order by id descending, limit. A positive `before` keeps
  // only older rows.
  function Search(rows: seq<LogRow>, base: LogRow -> bool, before: nat, limit: nat): seq<LogRow> {
    Take(Filter(rows, (r: LogRow) => base(r) && (before == 0 || r.id < before)), limit)
  }

  lemma {:induction false} FilterConcat(a: seq<LogRow>, b: seq<LogRow>, p: LogRow -> bool)
    ensures Filter(a + b, p) == Filter(a, p) + Filter(b, p)
  {
    if b == [] {
      assert a + b == a;
    } else {
      assert (a + b)[..|a + b| - 1] == a + b[..|b| - 1];
      FilterConcat(a, b[..|b| - 1], p);
    }
  }

  lemma {:induction false} FilterMembers(rows: seq<LogRow>, p: LogRow -> bool)
    requires NewestFirst(rows)
    ensures NewestFirst(Filter(rows, p))
    ensures forall r :: r in Filter(rows, p) <==> r in rows && p(r)
  {
    if rows != [] {
      var n := |rows| - 1;
      FilterMembers(rows[..n], p);
      var f := Filter(rows[..n], p);
      forall i | 0 <= i < |f|
        ensures f[i].id > rows[n].id
      {
        assert f[i] in rows[..n];
      }
    }
  }

  // Adding the page bound to the filter cuts the filtered rows at one place.
  lemma {:induction false} PageBound(rows: seq<LogRow>, base: LogRow -> bool, before: nat, pos: nat)
    requires NewestFirst(rows) && before > 0
    requires pos <= |Filter(rows, base)|
    requires forall i :: 0 <= i < pos ==> Filter(rows, base)[i].id >= before
    requires forall i :: pos <= i < |Filter(rows, base)| ==> Filter(rows, base)[i].id < before
    ensures Filter(rows, (r: LogRow) => base(r) && (before == 0 || r.id < before)) == Filter(rows, base)[pos..]
  {
    var q := (r: LogRow) => base(r) && (before == 0 || r.id < before);
    if rows != [] {
      var n := |rows| - 1;
      var f, g := Filter(rows, base), Filter(rows[..n], base);
      if base(rows[n]) {
        assert f == g + [rows[n]];
        assert f[|g|] == rows[n];
        if pos <= |g| {
          assert forall i :: 0 <= i < |g| ==> f[i] == g[i];
          PageBound(rows[..n], base, before, pos);
          assert pos < |f|;
          assert f[pos..] == g[pos..] + [rows[n]];
        } else {
          assert f[|g|].id >= before;
          FilterMembers(rows, base);
          assert forall i :: 0 <= i < |g| ==> g[i] == f[i] && g[i].id >= before;
          PageBound(rows[..n], base, before, |g|);
          assert f[pos..] == g[|g|..];
        }
      } else {
        PageBound(rows[..n], base, before, pos);
      }
    }
  }

  // The page after the first pos filtered rows is the next slice of the filtered rows.
  lemma PageIsSlice(rows: seq<LogRow>, base: LogRow -> bool, pos: nat, before: nat)
    requires NewestFirst(rows) && pos <= |Filter(rows, base)|
    requires before == if pos == 0 then 0 else Filter(rows, base)[pos - 1].id
    ensures Search(rows, base, before, CHUNK) == Take(Filter(rows, base)[pos..], CHUNK)
  {
    FilterMembers(rows, base);
    if pos == 0 {
      FilterSame(rows, base);
    } else {
      PageBound(rows, base, before, pos);
    }
  }

  lemma {:induction false} FilterSame(rows: seq<LogRow>, base: LogRow -> bool)
    ensures Filter(rows, (r: LogRow) => base(r) && (0 == 0 || r.id < 0)) == Filter(rows, base)
  {
    if rows != [] { FilterSame(rows[..|rows| - 1], base); }
  }

  // A full prefix of matches does not depend on the rows after it.
  lemma TakeStable(a: seq<LogRow>, b: seq<LogRow>, limit: nat)
    requires a <= b && |a| >= limit
    ensures Take(b, limit) == Take(a, limit)
  {}

  lemma FilterPrefix(rows: seq<LogRow>, n: nat, p: LogRow -> bool)
    requires n <= |rows|
    ensures Filter(rows[..n], p) <= Filter(rows, p)
  {
    assert rows == rows[..n] + rows[n..];
    FilterConcat(rows[..n], rows[n..], p);
  }

  // What the pages read so far have matched.
  ghost predicate Matched(all: seq<LogRow>, pos: nat, wanted: LogRow -> bool, limit: nat, matched: seq<LogRow>) {
    pos <= |all| && matched == Take(Filter(all[..pos], wanted), limit)
  }

  lemma PageMatched(all: seq<LogRow>, pos: nat, page: seq<LogRow>, wanted: LogRow -> bool, limit: nat, prior: seq<LogRow>)
    requires Matched(all, pos, wanted, limit, prior) && |prior| < limit
    requires pos + |page| <= |all| && page == all[pos..pos + |page|]
    ensures Matched(all, pos + |page|, wanted, limit, Take(prior + Filter(page, wanted), limit))
  {
    assert all[..pos + |page|] == all[..pos] + page;
    FilterConcat(all[..pos], page, wanted);
    assert prior == Filter(all[..pos], wanted);
    assert Filter(all[..pos + |page|], wanted) == prior + Filter(page, wanted);
  }

  lemma SearchEnds(all: seq<LogRow>, pos: nat, wanted: LogRow -> bool, limit: nat, matched: seq<LogRow>, n: nat)
    requires Matched(all, pos, wanted, limit, matched) && pos <= n
    requires |matched| >= limit || pos == |all| || pos == n
    ensures matched == Take(Filter(Take(all, n), wanted), limit)
  {
    var budget := Take(all, n);
    assert budget[..pos] == all[..pos];
    FilterPrefix(budget, pos, wanted);
    if |matched| >= limit {
      TakeStable(Filter(budget[..pos], wanted), Filter(budget, wanted), limit);
    } else {
      assert budget[..pos] == budget;
    }
  }

  // searchLevels: pages until the limit fills, a short page ends the rows, or the chunk
  // budget runs out. The answer is exactly the first `limit` level matches among the
  // newest 20,000 rows of the base filter.
  method SearchLevels(rows: seq<LogRow>, base: LogRow -> bool, wanted: LogRow -> bool, limit: nat)
    returns (matched: seq<LogRow>)
    requires NewestFirst(rows)
    ensures matched == Take(Filter(Take(Filter(rows, base), 20_000), wanted), limit)
  {
    matched := [];
    var before, chunk, done := 0, 0, false;
    ghost var all := Filter(rows, base);
    ghost var pos: nat := 0;
    while chunk < MAX_CHUNKS && |matched| < limit && !done
      invariant 0 <= chunk <= MAX_CHUNKS && pos <= chunk * CHUNK
      invariant Matched(all, pos, wanted, limit, matched)
      invariant before == if pos == 0 then 0 else all[pos - 1].id
      invariant if done then pos == |all| else pos == chunk * CHUNK
    {
      PageIsSlice(rows, base, pos, before);
      var page := Search(rows, base, before, CHUNK);
      chunk := chunk + 1;
      if page == [] {
        done := true;
      } else {
        PageMatched(all, pos, page, wanted, limit, matched);
        matched := MatchPage(page, wanted, matched, limit);
        before := page[|page| - 1].id;
        pos := pos + |page|;
        if |page| < CHUNK { done := true; }
      }
    }
    assert MAX_CHUNKS * CHUNK == 20_000;
    SearchEnds(all, pos, wanted, limit, matched, 20_000);
  }

  // The inner loop over one page.
  method MatchPage(page: seq<LogRow>, wanted: LogRow -> bool, prior: seq<LogRow>, limit: nat) returns (matched: seq<LogRow>)
    requires |prior| < limit
    ensures matched == Take(prior + Filter(page, wanted), limit)
  {
    matched := prior;
    var i := 0;
    while i < |page| && |matched| < limit
      invariant 0 <= i <= |page| && |matched| <= limit
      invariant matched == prior + Filter(page[..i], wanted)
    {
      assert page[..i + 1][..i] == page[..i];
      if wanted(page[i]) { matched := matched + [page[i]]; }
      i := i + 1;
    }
    FilterPrefix(page, i, wanted);
    assert page[..|page|] == page;
    if |matched| >= limit { TakeStable(matched, prior + Filter(page, wanted), limit); }
  }
}

/**
 Turning free text into query syntax: LIKE patterns for SDK log messages and full-text
 match expressions for container logs.
 */
module Escaping {
  import opened Common

  // strings.ReplaceAll of a single character.
  function ReplaceAll(s: string, c: char, with: string): string {
    if s == "" then "" else (if s[0] == c then with else [s[0]]) + ReplaceAll(s[1..], c, with)
  }

  lemma {:induction false} ReplaceConcat(a: string, b: string, c: char, with: string)
    ensures ReplaceAll(a + b, c, with) == ReplaceAll(a, c, with) + ReplaceAll(b, c, with)
  {
    if a == "" {
      assert a + b == b;
    } else {
      assert (a + b)[1..] == a[1..] + b;
      ReplaceConcat(a[1..], b, c, with);
    }
  }

  // ---------- LIKE ----------

  // Three replacements, the escape character first.
  function EscapeLike(query: string): string {
    ReplaceAll(ReplaceAll(ReplaceAll(query, '\\', "\\\\"), '%', "\\%"), '_', "\\_")
  }

  predicate Meta(c: char) { c == '\\' || c == '%' || c == '_' }

  function EscapeChar(c: char): string { if Meta(c) then ['\\', c] else [c] }

  // The chain escapes each metacharacter once and nothing else.
  lemma {:induction false} EscapeHead(query: string)
    requires query != ""
    ensures EscapeLike(query) == EscapeChar(query[0]) + EscapeLike(query[1..])
  {
    var c, rest := query[0], query[1..];
    var first := if c == '\\' then "\\\\" else [c];
    var one := ReplaceAll(rest, '\\', "\\\\");
    ReplaceConcat(first, one, '%', "\\%");
    ReplaceConcat(ReplaceAll(first, '%', "\\%"), ReplaceAll(one, '%', "\\%"), '_', "\\_");
    EscapeOne(c);
  }

  lemma EscapeOne(c: char)
    ensures ReplaceAll(ReplaceAll(if c == '\\' then "\\\\" else [c], '%', "\\%"), '_', "\\_") == EscapeChar(c)
  {
    if c == '\\' {
      ReplaceTwo('\\', '\\', '%', "\\%");
      ReplaceTwo('\\', '\\', '_', "\\_");
    } else {
      ReplaceTwo('\\', '%', '_', "\\_");
    }
  }

  lemma ReplaceTwo(a: char, b: char, c: char, with: string)
    ensures ReplaceAll([a], c, with) == if a == c then with else [a]
    ensures ReplaceAll([a, b], c, with) == (if a == c then with else [a]) + (if b == c then with else [b])
  {
    assert [a, b][1..] == [b];
    assert ReplaceAll([b], c, with) == if b == c then with else [b];
  }

  // SQLite folds ASCII letters only.
  function Fold(c: char): char { if 'A' <= c <= 'Z' then c + ('a' - 'A') else c }

  // Two characters fold together when they are the same, or one ASCII letter in both cases.
  lemma FoldMeans(a: char, b: char)
    ensures Fold(a) == Fold(b) <==>
              a == b || ('a' <= a <= 'z' && b as int + 32 == a as int) || ('a' <= b <= 'z' && a as int + 32 == b as int)
  {}

  // SQLite's LIKE with ESCAPE '\': an escape at the end of the pattern matches nothing.
  predicate Like(pattern: string, text: string)
    decreases |pattern| + |text|
  {
    if pattern == "" then text == ""
    else if pattern[0] == '%' then Like(pattern[1..], text) || (text != "" && Like(pattern, text[1..]))
    else if text == "" then false
    else if pattern[0] == '_' then Like(pattern[1..], text[1..])
    else if pattern[0] == '\\' then |pattern| > 1 && Fold(pattern[1]) == Fold(text[0]) && Like(pattern[2..], text[1..])
    else Fold(pattern[0]) == Fold(text[0]) && Like(pattern[1..], text[1..])
  }

  // The query stands at position i of the text, up to ASCII case.
  predicate OccursAt(query: string, text: string, i: nat) {
    i + |query| <= |text| && forall k :: 0 <= k < |query| ==> Fold(text[i + k]) == Fold(query[k])
  }

  ghost predicate Occurs(query: string, text: string) { exists i: nat :: OccursAt(query, text, i) }

  lemma {:induction false} AnyText(text: string)
    ensures Like("%", text)
  {
    if text != "" { AnyText(text[1..]); }
  }

  // An escaped query followed by % matches exactly the texts that begin with the query.
  lemma {:induction false} LikePrefix(query: string, text: string)
    ensures Like(EscapeLike(query) + "%", text) <==> OccursAt(query, text, 0)
  {
    if query == "" {
      assert EscapeLike(query) + "%" == "%";
      AnyText(text);
    } else {
      var rest := EscapeLike(query[1..]) + "%";
      EscapeHead(query);
      assert EscapeLike(query) + "%" == EscapeChar(query[0]) + rest;
      LikeHead(query[0], rest, text);
      if text != "" {
        LikePrefix(query[1..], text[1..]);
        OccursTail(query, text);
      }
    }
  }

  // An escaped character matches itself up to case, and nothing else.
  lemma LikeHead(c: char, rest: string, text: string)
    ensures Like(EscapeChar(c) + rest, text) <==> text != "" && Fold(c) == Fold(text[0]) && Like(rest, text[1..])
  {
    var pattern := EscapeChar(c) + rest;
    if Meta(c) { assert pattern[0] == '\\' && pattern[1] == c && pattern[2..] == rest; }
    else { assert pattern[0] == c && pattern[1..] == rest; }
  }

  lemma OccursTail(query: string, text: string)
    requires query != "" && text != ""
    ensures OccursAt(query, text, 0) <==> Fold(text[0]) == Fold(query[0]) && OccursAt(query[1..], text[1..], 0)
  {
    if OccursAt(query, text, 0) {
      forall k | 0 <= k < |query[1..]|
        ensures Fold(text[1..][0 + k]) == Fold(query[1..][k])
      {
        assert Fold(text[0 + (k + 1)]) == Fold(query[k + 1]);
      }
    }
    if Fold(text[0]) == Fold(query[0]) && OccursAt(query[1..], text[1..], 0) {
      forall k | 0 <= k < |query|
        ensures Fold(text[0 + k]) == Fold(query[k])
      {
        if k > 0 { assert Fold(text[1..][0 + (k - 1)]) == Fold(query[1..][k - 1]); }
      }
    }
  }

  lemma OccursShift(query: string, text: string, i: nat)
    requires text != ""
    ensures OccursAt(query, text, i + 1) <==> OccursAt(query, text[1..], i)
  {
    if OccursAt(query, text[1..], i) {
      forall k | 0 <= k < |query|
        ensures Fold(text[i + 1 + k]) == Fold(query[k])
      {
        assert text[i + 1 + k] == text[1..][i + k];
      }
    }
  }

  // The stored predicate finds a message exactly when the query occurs in it literally.
  lemma {:induction false} LikeIsSubstring(query: string, text: string)
    ensures Like("%" + EscapeLike(query) + "%", text) <==> Occurs(query, text)
  {
    var pattern := "%" + EscapeLike(query) + "%";
    assert pattern[1..] == EscapeLike(query) + "%";
    LikePrefix(query, text);
    if text != "" {
      LikeIsSubstring(query, text[1..]);
      if i: nat :| OccursAt(query, text[1..], i) { OccursShift(query, text, i); }
      if i: nat :| OccursAt(query, text, i) {
        if i > 0 { OccursShift(query, text, i - 1); }
      }
    } else if i: nat :| OccursAt(query, text, i) {
      assert i == 0;
    }
  }

  // ---------- full-text terms ----------

  // strings.Fields: the maximal runs of characters that are not white space.
  function WordEnd(s: string, i: nat): (e: nat)
    requires i <= |s|
    ensures i <= e <= |s|
    ensures forall k :: i <= k < e ==> !Space(s[k])
    ensures e < |s| ==> Space(s[e])
    decreases |s| - i
  {
    if i == |s| || Space(s[i]) then i else WordEnd(s, i + 1)
  }

  function Fields(s: string): seq<string>
    decreases |s|
  {
    if s == "" then []
    else if Space(s[0]) then Fields(s[1..])
    else [s[..WordEnd(s, 0)]] + Fields(s[WordEnd(s, 0)..])
  }

  function Quoted(field: string): string { "\"" + ReplaceAll(field, '"', "\"\"") + "\"" }

  const AND := " AND "

  function Joined(fields: seq<string>): string {
    if fields == [] then "" else Quoted(fields[0]) + if |fields| == 1 then "" else AND + Joined(fields[1..])
  }

  method SanitizeFTS(query: string) returns (text: string, ok: bool)
    ensures ok <==> Fields(query) != []
    ensures text == Joined(Fields(query))
  {
    var fields := Fields(query);
    if |fields| == 0 { return "", false; }
    var terms: seq<string> := [];
    for i := 0 to |fields|
      invariant |terms| == i && forall k :: 0 <= k < i ==> terms[k] == Quoted(fields[k])
    {
      terms := terms + [Quoted(fields[i])];
    }
    ok := true;
    text := terms[|terms| - 1];
    var j := |terms| - 1;
    assert fields[j..] == [fields[j]];
    while j > 0
      invariant 0 <= j < |terms| && text == Joined(fields[j..])
    {
      j := j - 1;
      assert fields[j..][1..] == fields[j + 1..];
      text := terms[j] + AND + text;
    }
    assert fields[0..] == fields;
  }

  // ---------- the match expression read back ----------

  datatype Token = Text(value: string) | And

  // The rest of a quoted string: its value, and what follows the closing quote.
  function LexQuoted(s: string): (r: Option<(string, string)>)
    ensures r.Some? ==> |r.value.1| < |s|
  {
    if s == "" then None
    else if s[0] != '"' then
      var r := LexQuoted(s[1..]);
      if r.None? then None else Some(([s[0]] + r.value.0, r.value.1))
    else if |s| > 1 && s[1] == '"' then
      var r := LexQuoted(s[2..]);
      if r.None? then None else Some(("\"" + r.value.0, r.value.1))
    else Some(("", s[1..]))
  }

  predicate QueryBlank(c: char) { c == ' ' || c == '\t' || c == '\n' || c == '\r' }

  predicate BareChar(c: char) { ('a' <= c <= 'z') || ('A' <= c <= 'Z') || ('0' <= c <= '9') || c == '_' || c == '\U{1A}' || c >= '\U{80}' }

  function BareEnd(s: string, i: nat): (e: nat)
    requires i <= |s|
    ensures i <= e <= |s|
    decreases |s| - i
  {
    if i == |s| || !BareChar(s[i]) then i else BareEnd(s, i + 1)
  }

  // The tokens of an FTS5 expression built from strings, barewords and AND; None is a
  // syntax error or an operator outside this fragment.
  function Lex(s: string): Option<seq<Token>>
    decreases |s|
  {
    if s == "" then Some([])
    else if QueryBlank(s[0]) then Lex(s[1..])
    else if s[0] == '"' then
      var r := LexQuoted(s[1..]);
      if r.None? then None else Prepend(Text(r.value.0), Lex(r.value.1))
    else if BareChar(s[0]) then
      var e := BareEnd(s, 1);
      Prepend(if s[..e] == "AND" then And else Text(s[..e]), Lex(s[e..]))
    else None
  }

  function Prepend(t: Token, rest: Option<seq<Token>>): Option<seq<Token>> {
    if rest.None? then None else Some([t] + rest.value)
  }

  function Tokens(fields: seq<string>): seq<Token> {
    if fields == [] then []
    else if |fields| == 1 then [Text(fields[0])]
    else [Text(fields[0]), And] + Tokens(fields[1..])
  }

  // A doubled string lexes back to itself and stops at its own closing quote.
  lemma {:induction false} QuotedBack(field: string, rest: string)
    requires rest == "" || rest[0] != '"'
    ensures LexQuoted(ReplaceAll(field, '"', "\"\"") + "\"" + rest) == Some((field, rest))
  {
    var body := ReplaceAll(field, '"', "\"\"") + "\"" + rest;
    if field == "" {
      assert body == "\"" + rest;
      assert body[1..] == rest;
    } else {
      QuotedBack(field[1..], rest);
      var tail := ReplaceAll(field[1..], '"', "\"\"") + "\"" + rest;
      if field[0] == '"' {
        assert body == "\"\"" + tail;
        assert body[2..] == tail;
      } else {
        assert body == [field[0]] + tail;
        assert body[1..] == tail;
      }
      assert [field[0]] + field[1..] == field;
    }
  }

  lemma AndLexes(rest: string)
    requires rest != "" && rest[0] == '"'
    ensures Lex(AND + rest) == Prepend(And, Lex(rest))
  {
    var t := "AND " + rest;
    assert (AND + rest)[1..] == t;
    assert BareEnd(t, 3) == 3 && BareEnd(t, 2) == 3;
    assert t[..3] == "AND" && t[3..] == " " + rest;
    assert Lex(t) == Prepend(And, Lex(" " + rest));
    assert (" " + rest)[1..] == rest;
    assert Lex(" " + rest) == Lex(rest);
  }

  lemma QuotedThen(field: string, rest: string)
    requires rest == "" || rest[0] != '"'
    ensures Lex(Quoted(field) + rest) == Prepend(Text(field), Lex(rest))
  {
    var doubled := ReplaceAll(field, '"', "\"\"");
    Requote(doubled, rest);
    QuotedBack(field, rest);
  }

  lemma Requote(z: string, rest: string)
    ensures ("\"" + z + "\"" + rest)[0] == '"' && ("\"" + z + "\"" + rest)[1..] == z + "\"" + rest
  {}

  lemma JoinedFirst(fields: seq<string>)
    requires fields != []
    ensures Joined(fields) != "" && Joined(fields)[0] == '"'
  {
    var q := Quoted(fields[0]);
    assert |q| > 0 && q[0] == '"';
    var rest := if |fields| == 1 then "" else AND + Joined(fields[1..]);
    assert (q + rest)[0] == q[0];
  }

  lemma PrependTwice(a: Token, b: Token, rest: seq<Token>)
    ensures Prepend(a, Prepend(b, Some(rest))) == Some([a, b] + rest)
  {
    assert [a] + ([b] + rest) == [a, b] + rest;
  }

  // Lexing the expression gives back exactly the fields, quotes included.
  lemma {:induction false} FieldsLex(fields: seq<string>)
    ensures Lex(Joined(fields)) == Some(Tokens(fields))
  {
    if |fields| == 1 {
      QuotedThen(fields[0], "");
      assert [Text(fields[0])] + [] == [Text(fields[0])];
    } else if fields != [] {
      var more := fields[1..];
      JoinedFirst(more);
      QuotedThen(fields[0], AND + Joined(more));
      AndLexes(Joined(more));
      FieldsLex(more);
      PrependTwice(Text(fields[0]), And, Tokens(more));
    }
  }

  // ---------- NUL ends the expression ----------

  predicate NoNul(s: string) { forall i :: 0 <= i < |s| ==> s[i] != '\0' }

  // What SQLite reads of a text: everything before its first NUL.
  function Read(s: string): string { if s == "" || s[0] == '\0' then "" else [s[0]] + Read(s[1..]) }

  lemma {:induction false} ReadConcat(a: string, b: string)
    ensures NoNul(a) ==> Read(a + b) == a + Read(b)
    ensures !NoNul(a) ==> Read(a + b) == Read(a)
    decreases |a|
  {
    if a == "" {
      assert a + b == b;
    } else {
      NoNulTail(a);
      assert (a + b)[1..] == a[1..] + b && (a + b)[0] == a[0];
      if a[0] != '\0' {
        ReadConcat(a[1..], b);
        if NoNul(a) { HeadTail(a, Read(b)); }
      }
    }
  }

  lemma HeadTail(a: string, t: string)
    requires a != ""
    ensures [a[0]] + (a[1..] + t) == a + t
  {}

  lemma NoNulTail(a: string)
    requires a != ""
    ensures NoNul(a) <==> a[0] != '\0' && NoNul(a[1..])
  {
    if a[0] != '\0' && NoNul(a[1..]) {
      forall i | 0 <= i < |a| ensures a[i] != '\0' { if i > 0 { assert a[1..][i - 1] != '\0'; } }
    }
  }

  // A quoted field that is cut at a NUL never ends.
  lemma {:induction false} CutQuote(field: string)
    requires !NoNul(field)
    ensures LexQuoted(Read(ReplaceAll(field, '"', "\"\""))) == None
  {
    var body := ReplaceAll(field, '"', "\"\"");
    NoNulTail(field);
    if field[0] == '"' {
      CutQuote(field[1..]);
      var tail := ReplaceAll(field[1..], '"', "\"\"");
      ReadConcat("\"\"", tail);
      assert ("\"\"" + Read(tail))[2..] == Read(tail);
    } else if field[0] != '\0' {
      CutQuote(field[1..]);
      var tail := ReplaceAll(field[1..], '"', "\"\"");
      ReadConcat([field[0]], tail);
      assert ([field[0]] + Read(tail))[1..] == Read(tail);
    }
  }

  lemma {:induction false} DoubledNul(field: string)
    ensures NoNul(ReplaceAll(field, '"', "\"\"")) <==> NoNul(field)
  {
    if field != "" {
      DoubledNul(field[1..]);
      NoNulTail(field);
      NoNulConcat(if field[0] == '"' then "\"\"" else [field[0]], ReplaceAll(field[1..], '"', "\"\""));
    }
  }

  lemma NoNulConcat(a: string, b: string)
    ensures NoNul(a + b) <==> NoNul(a) && NoNul(b)
  {
    if NoNul(a + b) {
      forall i | 0 <= i < |a| ensures a[i] != '\0' { assert (a + b)[i] == a[i]; }
      forall i | 0 <= i < |b| ensures b[i] != '\0' { assert (a + b)[|a| + i] == b[i]; }
    }
  }

  // How SQLite reads a quoted field and what follows it.
  lemma ReadQuoted(field: string, rest: string)
    ensures NoNul(field) ==> Read(Quoted(field) + rest) == Quoted(field) + Read(rest)
    ensures !NoNul(field) ==> Lex(Read(Quoted(field) + rest)) == None
  {
    var body := ReplaceAll(field, '"', "\"\"");
    DoubledNul(field);
    NoNulConcat("\"" + body, "\"");
    NoNulConcat("\"", body);
    if NoNul(field) {
      ReadConcat(Quoted(field), rest);
    } else {
      assert Quoted(field) + rest == "\"" + (body + ("\"" + rest));
      ReadConcat("\"", body + ("\"" + rest));
      ReadConcat(body, "\"" + rest);
      CutQuote(field);
      assert ("\"" + Read(body))[1..] == Read(body);
    }
  }

  predicate NulFree(fields: seq<string>) { forall i :: 0 <= i < |fields| ==> NoNul(fields[i]) }

  lemma {:induction false} ReadJoined(fields: seq<string>)
    ensures NulFree(fields) ==> Read(Joined(fields)) == Joined(fields)
    ensures !NulFree(fields) ==> Lex(Read(Joined(fields))) == None
  {
    if fields != [] {
      var field, more := fields[0], fields[1..];
      var rest := if |fields| == 1 then "" else AND + Joined(more);
      ReadQuoted(field, rest);
      assert NulFree(fields) <==> NoNul(field) && NulFree(more);
      if NoNul(field) && |fields| > 1 {
        ReadJoined(more);
        ReadConcat(AND, Joined(more));
        if !NulFree(more) {
          JoinedFirst(more);
          CutLater(field, Joined(more));
        }
      }
    }
  }

  lemma CutLater(field: string, later: string)
    requires NoNul(field) && later != "" && later[0] == '"' && Lex(Read(later)) == None
    ensures Lex(Quoted(field) + (AND + Read(later))) == None
  {
    QuotedThen(field, AND + Read(later));
    AndLexes(Read(later));
  }

  // SQLite lexes the expression back to exactly the fields if and only if no field holds a
  // NUL, which would end it inside a quote.
  lemma FieldsSurvive(fields: seq<string>)
    ensures Lex(Read(Joined(fields))) == Some(Tokens(fields)) <==> NulFree(fields)
  {
    ReadJoined(fields);
    FieldsLex(fields);
  }

  function Strip(s: string): string {
    if s == "" then "" else (if Space(s[0]) then "" else [s[0]]) + Strip(s[1..])
  }

  function Flatten(fields: seq<string>): string { if fields == [] then "" else fields[0] + Flatten(fields[1..]) }

  lemma {:induction false} StripWord(s: string, e: nat)
    requires e <= |s| && forall k :: 0 <= k < e ==> !Space(s[k])
    ensures Strip(s) == s[..e] + Strip(s[e..])
    decreases e
  {
    if e > 0 {
      StripWord(s[1..], e - 1);
      assert s[1..][e - 1..] == s[e..];
      assert [s[0]] + s[1..][..e - 1] == s[..e];
    } else {
      assert s[0..] == s;
    }
  }

  predicate Word(f: string) { f != "" && forall k :: 0 <= k < |f| ==> !Space(f[k]) }

  // The fields are words, and together hold the query's characters in order.
  lemma {:induction false} FieldsAreWords(s: string)
    ensures Flatten(Fields(s)) == Strip(s)
    ensures forall i :: 0 <= i < |Fields(s)| ==> Word(Fields(s)[i])
    decreases |s|
  {
    if s != "" {
      if Space(s[0]) {
        FieldsAreWords(s[1..]);
      } else {
        var e := WordEnd(s, 0);
        FieldsAreWords(s[e..]);
        StripWord(s, e);
        assert Word(s[..e]);
      }
    }
  }

  // Separators and fields in turn, from the separator before the first field on.
  function Weave(seps: seq<string>, fields: seq<string>): string
    requires |seps| == |fields| + 1
  {
    if fields == [] then seps[0] else seps[0] + (fields[0] + Weave(seps[1..], fields[1..]))
  }

  // The separators are white space, and between two fields there is some: the fields are
  // the longest runs.
  ghost predicate Separates(seps: seq<string>, fields: seq<string>) {
    && |seps| == |fields| + 1
    && (forall i :: 0 <= i < |seps| ==> Blank(seps[i]))
    && (forall i :: 0 < i < |fields| ==> seps[i] != "")
  }

  // The query is its fields with white space around and between them.
  lemma {:induction false} FieldsWoven(s: string) returns (seps: seq<string>)
    ensures Separates(seps, Fields(s)) && Weave(seps, Fields(s)) == s
    ensures s != "" && !Space(s[0]) ==> seps[0] == ""
    decreases |s|
  {
    if s == "" {
      seps := [""];
    } else if Space(s[0]) {
      var rest := FieldsWoven(s[1..]);
      seps := [[s[0]] + rest[0]] + rest[1..];
      WeaveWiden([s[0]], rest, Fields(s));
      SeparatesWiden(s[0], rest, Fields(s));
      assert [s[0]] + s[1..] == s;
    } else {
      var e := WordEnd(s, 0);
      var rest := FieldsWoven(s[e..]);
      seps := [""] + rest;
      assert Fields(s) == [s[..e]] + Fields(s[e..]);
      assert seps[1..] == rest && Fields(s)[1..] == Fields(s[e..]);
      assert s == s[..e] + s[e..];
      AfterWord(s, e, rest);
    }
  }

  lemma WeaveWiden(a: string, seps: seq<string>, fields: seq<string>)
    requires |seps| == |fields| + 1
    ensures Weave([a + seps[0]] + seps[1..], fields) == a + Weave(seps, fields)
  {
    var wider := [a + seps[0]] + seps[1..];
    assert wider[1..] == seps[1..];
    if fields != [] { Regroup(a, seps[0], fields[0] + Weave(seps[1..], fields[1..])); }
  }

  lemma SeparatesWiden(c: char, seps: seq<string>, fields: seq<string>)
    requires Separates(seps, fields) && Space(c)
    ensures Separates([[c] + seps[0]] + seps[1..], fields)
  {
    var wider := [[c] + seps[0]] + seps[1..];
    forall i | 0 <= i < |wider|
      ensures Blank(wider[i]) && (0 < i < |fields| ==> wider[i] != "")
    {
      if i > 0 { assert wider[i] == seps[i]; }
    }
  }

  lemma Regroup(a: string, b: string, c: string)
    ensures (a + b) + c == a + (b + c)
  {}

  // A field ends before white space or at the end of the query.
  lemma AfterWord(s: string, e: nat, rest: seq<string>)
    requires s != "" && !Space(s[0]) && e == WordEnd(s, 0) && Separates(rest, Fields(s[e..])) && Weave(rest, Fields(s[e..])) == s[e..]
    ensures Separates([""] + rest, [s[..e]] + Fields(s[e..]))
  {
    var tail := Fields(s[e..]);
    if tail != [] && rest[0] == "" {
      FieldsAreWords(s[e..]);
      WordFirst(rest, tail);
    }
  }

  lemma WordFirst(seps: seq<string>, fields: seq<string>)
    requires |seps| == |fields| + 1 && fields != [] && seps[0] == "" && Word(fields[0])
    ensures Weave(seps, fields) != "" && !Space(Weave(seps, fields)[0])
  {
    var later := Weave(seps[1..], fields[1..]);
    FirstChar(fields[0], later);
    assert "" + (fields[0] + later) == fields[0] + later;
  }

  lemma FirstChar(a: string, b: string)
    requires a != ""
    ensures a + b != "" && (a + b)[0] == a[0]
  {}

  // No expression is built exactly for a blank query.
  lemma {:induction false} NoFieldsWhenBlank(s: string)
    ensures Fields(s) == [] <==> Blank(s)
    decreases |s|
  {
    if s != "" && Space(s[0]) {
      NoFieldsWhenBlank(s[1..]);
      if Blank(s[1..]) {
        forall i | 0 <= i < |s| ensures Space(s[i]) { if i > 0 { assert Space(s[1..][i - 1]); } }
      }
    }
  }
}

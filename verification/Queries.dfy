/**
 Searching documents by path: the search text is escaped for LIKE, and LIKE ignores ASCII case. The
 three replacements are proved to leave a pattern that matches exactly the paths containing the text.
 */
module Queries {
  import opened Stores

  /** `s.replace(c, "\\" + c)`. */
  function Replaced(s: string, c: char): string {
    if s == [] then [] else (if s[0] == c then ['\\', c] else [s[0]]) + Replaced(s[1..], c)
  }

  predicate Special(c: char) {
    c == '\\' || c == '%' || c == '_'
  }

  /** Every special character behind a backslash, in one pass. */
  function Escaped(s: string): string {
    if s == [] then [] else (if Special(s[0]) then ['\\', s[0]] else [s[0]]) + Escaped(s[1..])
  }

  /** The escaping as the query builder does it. */
  method EscapeQuery(query: string) returns (escaped: string)
    ensures escaped == Escaped(query)
  {
    escaped := Replaced(Replaced(Replaced(query, '\\'), '%'), '_');
    ThreePasses(query);
  }

  lemma ReplacedHead(c: char, s: string, rest: string)
    ensures Replaced([c] + rest, c) == ['\\', c] + Replaced(rest, c)
    ensures s != [] && s[0] != c ==> Replaced(s, c) == [s[0]] + Replaced(s[1..], c)
  {
    assert ([c] + rest)[1..] == rest;
  }

  /** Replacing a character other than the backslash leaves an escape in front in place. */
  lemma ReplacedBehind(a: char, b: char, rest: string, c: char)
    requires c != '\\' && a != c
    ensures Replaced([a, b] + rest, c) == [a] + (if b == c then ['\\', c] else [b]) + Replaced(rest, c)
  {
    assert ([a, b] + rest)[1..] == [b] + rest && ([b] + rest)[1..] == rest;
  }

  lemma ReplacedOne(a: char, rest: string, c: char)
    ensures Replaced([a] + rest, c) == (if a == c then ['\\', c] else [a]) + Replaced(rest, c)
  {
    assert ([a] + rest)[1..] == rest;
  }

  lemma FirstCharacter(c: char, rest: string)
    ensures
      var one := Replaced(rest, '\\');
      var two := Replaced(one, '%');
      Replaced(Replaced(Replaced([c] + rest, '\\'), '%'), '_') ==
        (if Special(c) then ['\\', c] else [c]) + Replaced(two, '_')
  {
    var one := Replaced(rest, '\\');
    var two := Replaced(one, '%');
    ReplacedOne(c, rest, '\\');
    if c == '\\' {
      ReplacedBehind('\\', '\\', one, '%');
      assert ['\\'] + ['\\'] == ['\\', '\\'];
      ReplacedBehind('\\', '\\', two, '_');
    } else {
      ReplacedOne(c, one, '%');
      if c == '%' { ReplacedBehind('\\', '%', two, '_'); assert ['\\'] + ['%'] == ['\\', '%']; }
      else { ReplacedOne(c, two, '_'); }
    }
  }

  /** Backslashes first: then no pass escapes what an earlier pass wrote. */
  lemma {:induction false} ThreePasses(s: string)
    ensures Replaced(Replaced(Replaced(s, '\\'), '%'), '_') == Escaped(s)
  {
    if s != [] {
      ThreePasses(s[1..]);
      FirstCharacter(s[0], s[1..]);
      assert s == [s[0]] + s[1..];
    }
  }

  /** In the other order an escape is itself escaped. */
  lemma OrderMatters()
    ensures Replaced(Replaced("%", '%'), '\\') != Escaped("%")
  {
    assert Replaced("%", '%') == ['\\', '%'] + Replaced("", '%');
    assert Escaped("%") == ['\\', '%'] + Escaped("");
    ReplacedOne('\\', "%", '\\');
    assert ['\\'] + "%" == ['\\', '%'];
    ReplacedOne('%', "", '\\');
  }

  // ---- LIKE ... ESCAPE '\'

  /** ASCII letters compare without case. */
  function Fold(c: char): char {
    if 'A' <= c <= 'Z' then c + ' ' else c
  }

  predicate SameChar(a: char, b: char) {
    Fold(a) == Fold(b)
  }

  /** SQL's LIKE: `%` any text, `_` any character, a backslash takes the next character literally. */
  ghost predicate Like(pattern: string, text: string)
    decreases |pattern|
  {
    if pattern == [] then text == []
    else if pattern[0] == '%' then exists k :: 0 <= k <= |text| && Like(pattern[1..], text[k..])
    else if pattern[0] == '_' then text != [] && Like(pattern[1..], text[1..])
    else if pattern[0] == '\\' then
      |pattern| >= 2 && text != [] && SameChar(pattern[1], text[0]) && Like(pattern[2..], text[1..])
    else text != [] && SameChar(pattern[0], text[0]) && Like(pattern[1..], text[1..])
  }

  /** The same character, or the same letter of ASCII in capital and small. */
  predicate Alike(a: char, b: char) {
    || a == b
    || ('A' <= a <= 'Z' && b as int == a as int + 32) || ('A' <= b <= 'Z' && a as int == b as int + 32)
  }

  lemma CharsAlike(a: char, b: char)
    ensures SameChar(a, b) <==> Alike(a, b)
  {
  }

  predicate SameText(a: string, b: string) {
    |a| == |b| && forall i | 0 <= i < |a| :: Alike(a[i], b[i])
  }

  predicate ContainsAt(text: string, query: string, k: nat) {
    k + |query| <= |text| && SameText(text[k..k + |query|], query)
  }

  /** The text contains the query, up to ASCII case. */
  ghost predicate Contains(text: string, query: string) {
    exists k :: ContainsAt(text, query, k)
  }

  lemma AnyTail(text: string)
    ensures Like("%", text)
  {
    assert "%"[1..] == "" && text[|text|..] == "";
    assert Like("%"[1..], text[|text|..]);
  }

  /** An escaped query matches itself and nothing else, then the rest of the pattern the rest of the text. */
  lemma {:induction false} EscapedMatchesItself(query: string, text: string)
    ensures Like(Escaped(query) + "%", text) <==> |query| <= |text| && SameText(text[..|query|], query)
  {
    if query == [] {
      assert Escaped(query) + "%" == "%";
      AnyTail(text);
    } else {
      var rest := Escaped(query[1..]) + "%";
      if Special(query[0]) {
        assert Escaped(query) + "%" == ['\\', query[0]] + rest;
        assert (['\\', query[0]] + rest)[2..] == rest;
      } else {
        assert Escaped(query) + "%" == [query[0]] + rest;
        assert ([query[0]] + rest)[1..] == rest;
      }
      assert Like(Escaped(query) + "%", text) <==> text != [] && SameChar(query[0], text[0]) && Like(rest, text[1..]);
      if text != [] {
        EscapedMatchesItself(query[1..], text[1..]);
        SameTextHead(query, text);
        CharsAlike(query[0], text[0]);
      }
    }
  }

  lemma SameTextHead(query: string, text: string)
    requires query != [] && text != []
    ensures |query| <= |text| ==>
              (SameText(text[..|query|], query) <==>
                 Alike(query[0], text[0]) && SameText(text[1..][..|query| - 1], query[1..]))
  {
    if |query| <= |text| {
      var a, b := text[..|query|], text[1..][..|query| - 1];
      assert forall i | 0 <= i < |b| :: b[i] == a[i + 1] && query[1..][i] == query[i + 1];
      if Alike(query[0], text[0]) && SameText(b, query[1..]) {
        forall i | 0 <= i < |a| ensures Alike(a[i], query[i]) {
          if i > 0 { assert Alike(b[i - 1], query[1..][i - 1]); }
        }
      }
    }
  }

  /** The filter finds exactly the paths that contain the search text, whatever characters it holds. */
  lemma SearchIsContainment(query: string, path: string)
    ensures Like("%" + Escaped(query) + "%", path) <==> Contains(path, query)
  {
    var rest := Escaped(query) + "%";
    assert "%" + Escaped(query) + "%" == ['%'] + rest;
    assert (['%'] + rest)[1..] == rest;
    forall k | 0 <= k <= |path| ensures Like(rest, path[k..]) <==> ContainsAt(path, query, k) {
      EscapedMatchesItself(query, path[k..]);
      assert k + |query| <= |path| ==> path[k..][..|query|] == path[k..k + |query|];
    }
    if k: nat :| ContainsAt(path, query, k) { assert Like(rest, path[k..]); }
  }

  lemma AfterAnyText(pattern: string, text: string, k: nat)
    requires k <= |text| && Like(pattern, text[k..])
    ensures Like(['%'] + pattern, text)
  {
    assert (['%'] + pattern)[1..] == pattern;
  }

  lemma AfterAnyChar(pattern: string, text: string)
    requires text != "" && Like(pattern, text[1..])
    ensures Like(['_'] + pattern, text)
  {
    assert (['_'] + pattern)[1..] == pattern;
  }

  /** Without the escaping, a search for `_` finds every nonempty path, with or without one in it. */
  lemma UnescapedMatchesMore(path: string)
    requires path != "" && '_' !in path
    ensures Like("%" + "_" + "%", path) && !Contains(path, "_")
  {
    AnyTail(path[1..]);
    AfterAnyChar("%", path);
    assert path[0..] == path;
    AfterAnyText(['_'] + "%", path, 0);
    assert "%" + "_" + "%" == ['%'] + (['_'] + "%");
    forall k: nat ensures !ContainsAt(path, "_", k) {
      if k < |path| { assert path[k..k + 1][0] == path[k] && path[k] in path && !Alike(path[k], "_"[0]); }
    }
  }

  // ---- the filter

  /** What the filter looks at in a document row. */
  datatype Doc = Doc(job: string, status: string, run: string, path: string)

  /** A condition with one placeholder. */
  datatype Clause = JobIs | StatusIs | RunIs | PathLike

  ghost predicate Satisfies(d: Doc, c: Clause, param: string) {
    match c
    case JobIs => d.job == param
    case StatusIs => d.status == param
    case RunIs => d.run == param
    case PathLike => Like(param, d.path)
  }

  /** The clauses joined by AND, each with its parameter. */
  ghost predicate Selected(d: Doc, clauses: seq<Clause>, params: seq<string>) {
    |clauses| == |params| && forall i | 0 <= i < |clauses| :: Satisfies(d, clauses[i], params[i])
  }

  ghost predicate Wanted(d: Doc, job: string, status: Option<string>, query: Option<string>, run: Option<string>) {
    && d.job == job
    && (status.Some? ==> d.status == status.value)
    && (run.Some? ==> d.run == run.value)
    && (query.Some? ==> Contains(d.path, query.value))
  }

  lemma OneMoreClause(d: Doc, clauses: seq<Clause>, params: seq<string>, c: Clause, param: string)
    requires |clauses| == |params|
    ensures Selected(d, clauses + [c], params + [param]) <==> Selected(d, clauses, params) && Satisfies(d, c, param)
  {
    assert (clauses + [c])[|clauses|] == c && (params + [param])[|clauses|] == param;
    if Selected(d, clauses + [c], params + [param]) {
      forall i | 0 <= i < |clauses| ensures Satisfies(d, clauses[i], params[i]) {
        assert (clauses + [c])[i] == clauses[i] && (params + [param])[i] == params[i];
      }
    }
  }

  /** Every text contains the empty text. */
  lemma EmptyQuery(path: string)
    ensures Contains(path, "")
  {
    assert ContainsAt(path, "", 0);
  }

  /** `_document_filter`: an empty query adds no clause and, like the others, filters by its meaning. */
  method DocumentFilter(job: string, status: Option<string>, query: Option<string>, run: Option<string>)
    returns (clauses: seq<Clause>, params: seq<string>)
    ensures |clauses| == |params|
    ensures forall d :: Selected(d, clauses, params) <==> Wanted(d, job, status, query, run)
  {
    clauses, params := [JobIs], [job];
    forall d ensures Selected(d, clauses, params) <==> Wanted(d, job, None, None, None) {
      assert Satisfies(d, clauses[0], params[0]) <==> d.job == job;
    }
    if status.Some? { clauses, params := With(clauses, params, StatusIs, status.value); }
    if run.Some? { clauses, params := With(clauses, params, RunIs, run.value); }
    if query.Some? && query.value != "" {
      var escaped := EscapeQuery(query.value);
      forall d: Doc ensures Like("%" + escaped + "%", d.path) <==> Contains(d.path, query.value) {
        SearchIsContainment(query.value, d.path);
      }
      clauses, params := With(clauses, params, PathLike, "%" + escaped + "%");
    } else {
      forall d: Doc ensures Contains(d.path, "") { EmptyQuery(d.path); }
    }
  }

  method With(clauses: seq<Clause>, params: seq<string>, c: Clause, param: string)
    returns (clauses': seq<Clause>, params': seq<string>)
    requires |clauses| == |params|
    ensures |clauses'| == |params'|
    ensures forall d :: Selected(d, clauses', params') <==> Selected(d, clauses, params) && Satisfies(d, c, param)
  {
    clauses', params' := clauses + [c], params + [param];
    forall d ensures Selected(d, clauses', params') <==> Selected(d, clauses, params) && Satisfies(d, c, param) {
      OneMoreClause(d, clauses, params, c, param);
    }
  }
}

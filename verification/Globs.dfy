/**
 The glob dialect of the filters. The compiler turns a pattern into a regular expression from left
 to right; what it accepts is proved to be what the documentation promises, segment by segment.
 Paths contain no newline, so `.` and `$` mean what they say.
 */
module Globs {
  import opened Texts

  /** The pieces of the compiled expression. */
  datatype Part =
    | Dirs          // (?:.*/)?
    | Any           // .*
    | Segment       // [^/]*
    | One           // [^/]
    | Lit(c: char)  // the escaped character

  /** `s.replace("\\", "/")`. */
  function Slashed(s: string): (t: string)
    ensures |t| == |s| && forall i | 0 <= i < |s| :: t[i] == if s[i] == '\\' then '/' else s[i]
  {
    if s == [] then [] else [if s[0] == '\\' then '/' else s[0]] + Slashed(s[1..])
  }

  /** `s.lstrip("/")`. */
  function Unrooted(s: string): string {
    if s != [] && s[0] == '/' then Unrooted(s[1..]) else s
  }

  function Normalized(s: string): string {
    Unrooted(Slashed(s))
  }

  /** How many characters the first part is written with. */
  function PartWidth(s: string): (width: nat)
    requires s != []
    ensures 0 < width <= |s|
  {
    if |s| < 2 || s[0] != '*' || s[1] != '*' then 1 else if |s| >= 3 && s[2] == '/' then 3 else 2
  }

  function PartOf(s: string): Part
    requires s != []
  {
    if PartWidth(s) == 3 then Dirs
    else if PartWidth(s) == 2 then Any
    else if s[0] == '*' then Segment
    else if s[0] == '?' then One
    else Lit(s[0])
  }

  function Parts(s: string): seq<Part> {
    if s == [] then [] else [PartOf(s)] + Parts(s[PartWidth(s)..])
  }

  /** The loop of `glob_to_regex`. */
  method GlobToRegex(pattern: string) returns (parts: seq<Part>)
    ensures parts == Parts(Normalized(pattern))
  {
    var normalized := Normalized(pattern);
    parts := [];
    var i := 0;
    assert normalized[0..] == normalized;
    while i < |normalized|
      invariant 0 <= i <= |normalized|
      invariant parts + Parts(normalized[i..]) == Parts(normalized)
    {
      var next, width := NextPart(normalized, i);
      assert normalized[i..][width..] == normalized[i + width..];
      Associate(parts, [next], Parts(normalized[i + width..]));
      parts := parts + [next];
      i := i + width;
    }
  }

  /** One turn of it: the part that begins at `i`, and its width. */
  method NextPart(normalized: string, i: nat) returns (next: Part, width: nat)
    requires i < |normalized|
    ensures next == PartOf(normalized[i..]) && width == PartWidth(normalized[i..])
  {
    ghost var rest := normalized[i..];
    assert forall j | 0 <= j < |rest| :: rest[j] == normalized[i + j];
    var c := normalized[i];
    next, width := Lit(c), 1;
    if c == '*' {
      if i + 3 <= |normalized| && normalized[i..i + 3] == "**/" {
        assert normalized[i..i + 3][1] == '*' && normalized[i..i + 3][2] == '/';
        next, width := Dirs, 3;
      } else if i + 2 <= |normalized| && normalized[i..i + 2] == "**" {
        assert normalized[i..i + 2][1] == '*';
        assert i + 3 <= |normalized| ==> normalized[i..i + 3] == ['*', '*', normalized[i + 2]];
        next, width := Any, 2;
      } else {
        assert i + 2 <= |normalized| ==> normalized[i..i + 2] == ['*', normalized[i + 1]];
        assert i + 3 <= |normalized| ==> normalized[i..i + 3] == ['*', normalized[i + 1], normalized[i + 2]];
        next, width := Segment, 1;
      }
    } else if c == '?' {
      next, width := One, 1;
    }
  }

  /** A character that is no star is one part. */
  lemma PartsOfChar(c: char, rest: string)
    requires c != '*'
    ensures Parts([c] + rest) == [if c == '?' then One else Lit(c)] + Parts(rest)
  {
    assert ([c] + rest)[1..] == rest;
  }

  /** The compiled expression, anchored at both ends. */
  ghost predicate Accepts(parts: seq<Part>, path: string)
    decreases |parts|
  {
    if parts == [] then path == []
    else
      var rest := parts[1..];
      match parts[0]
      case Dirs => Accepts(rest, path) || exists k :: 0 < k <= |path| && path[k - 1] == '/' && Accepts(rest, path[k..])
      case Any => exists k :: 0 <= k <= |path| && Accepts(rest, path[k..])
      case Segment => exists k :: 0 <= k <= PartEnd(path, '/') && Accepts(rest, path[k..])
      case One => path != [] && path[0] != '/' && Accepts(rest, path[1..])
      case Lit(c) => path != [] && path[0] == c && Accepts(rest, path[1..])
  }

  // ---- the documented dialect, segment by segment

  /** Within one segment: `*` is any run of characters, `?` any one. */
  ghost predicate MatchSegment(p: string, s: string)
    decreases |p|
  {
    if p == [] then s == []
    else if p[0] == '*' then exists k :: 0 <= k <= |s| && MatchSegment(p[1..], s[k..])
    else s != [] && (p[0] == '?' || p[0] == s[0]) && MatchSegment(p[1..], s[1..])
  }

  /** `**` as a whole segment is any number of segments, at the end at least one. */
  ghost predicate MatchSegments(ps: seq<string>, segments: seq<string>)
    decreases |ps|, |segments|
  {
    if ps == [] then segments == []
    else if ps[0] == "**" && |ps| == 1 then segments != []
    else if ps[0] == "**" then
      MatchSegments(ps[1..], segments) || (segments != [] && MatchSegments(ps, segments[1..]))
    else segments != [] && MatchSegment(ps[0], segments[0]) && MatchSegments(ps[1..], segments[1..])
  }

  /** One segment of a pattern, with `**` only as a whole segment. */
  predicate PlainSegment(p: string) {
    '/' !in p && (p == "**" || forall i | 0 <= i < |p| - 1 :: !(p[i] == '*' && p[i + 1] == '*'))
  }

  /** A pattern from its segments. */
  function Pattern(ps: seq<string>): string
    requires ps != []
  {
    if |ps| == 1 then ps[0] else ps[0] + "/" + Pattern(ps[1..])
  }

  predicate Starless(p: string) {
    '/' !in p && forall i | 0 <= i < |p| - 1 :: !(p[i] == '*' && p[i + 1] == '*')
  }

  lemma StarlessTail(p: string)
    requires Starless(p) && p != []
    ensures Starless(p[1..]) && p[0] != '/' && (|p| >= 2 && p[0] == '*' ==> p[1] != '*')
  {
    assert p[0] in p && forall c | c in p[1..] :: c in p;
    forall i | 0 <= i < |p[1..]| - 1 ensures !(p[1..][i] == '*' && p[1..][i + 1] == '*') {
      assert p[1..][i] == p[i + 1] && p[1..][i + 1] == p[i + 1 + 1];
    }
  }

  /** No run of stars goes on behind the cut, and none of two stars meets a slash there. */
  predicate Apart(before: string, rest: string) {
    before == [] || rest == [] || before[|before| - 1] != '*' ||
    (rest[0] == '/' && (|before| == 1 || before[|before| - 2] != '*'))
  }

  lemma StartsAlike(before: string, rest: string)
    requires before != [] && Apart(before, rest)
    ensures
      var width := PartWidth(before);
      && PartOf(before + rest) == PartOf(before) && PartWidth(before + rest) == width
      && (before + rest)[width..] == before[width..] + rest && Apart(before[width..], rest)
  {
  }

  lemma {:induction false} PartsAppend(before: string, rest: string)
    requires Apart(before, rest)
    ensures Parts(before + rest) == Parts(before) + Parts(rest)
    decreases |before|
  {
    if before == [] {
      assert before + rest == rest;
    } else {
      StartsAlike(before, rest);
      PartsAppend(before[PartWidth(before)..], rest);
      Associate([PartOf(before)], Parts(before[PartWidth(before)..]), Parts(rest));
    }
  }

  lemma PartsOfSegment(p: string, rest: string)
    requires Starless(p) && (rest == [] || rest[0] == '/')
    ensures Parts(p + rest) == Parts(p) + Parts(rest)
  {
    assert |p| >= 2 ==> !(p[|p| - 2] == '*' && p[|p| - 2 + 1] == '*');
    PartsAppend(p, rest);
  }

  /** What can follow a segment: the end, or a slash. */
  predicate Bounded(rest: seq<Part>) {
    rest == [] || rest[0] == Lit('/')
  }

  lemma TailAccepts(rest: seq<Part>, path: string)
    requires Bounded(rest) && Accepts(rest, path)
    ensures PartEnd(path, '/') == 0
  {
  }

  /** A segment's parts match the path up to its first slash, and what follows matches from there. */
  lemma {:induction false} SegmentAccepts(p: string, rest: seq<Part>, path: string)
    requires Starless(p) && Bounded(rest)
    ensures
      var n := PartEnd(path, '/');
      Accepts(Parts(p) + rest, path) <==> MatchSegment(p, path[..n]) && Accepts(rest, path[n..])
    decreases |p|
  {
    var n := PartEnd(path, '/');
    if p == [] {
      assert Parts(p) + rest == rest;
      if Accepts(rest, path) {
        TailAccepts(rest, path);
        assert path[..0] == [] && path[0..] == path;
      }
      if path[..n] == [] { assert path[n..] == path; }
    } else {
      StarlessTail(p);
      HeadPart(p, rest);
      if p[0] == '*' {
        StarAccepts(p, rest, path);
      } else {
        if n > 0 { SegmentAccepts(p[1..], rest, path[1..]); }
        CharAccepts(p, rest, path);
      }
    }
  }

  lemma HeadPart(p: string, rest: seq<Part>)
    requires p != [] && Starless(p)
    ensures Parts(p) + rest == [FirstPart(p[0])] + (Parts(p[1..]) + rest)
    ensures (Parts(p) + rest)[0] == FirstPart(p[0]) && (Parts(p) + rest)[1..] == Parts(p[1..]) + rest
  {
    StarlessTail(p);
    assert Parts(p) == [FirstPart(p[0])] + Parts(p[1..]);
  }

  lemma CharAccepts(p: string, rest: seq<Part>, path: string)
    requires p != [] && Starless(p) && p[0] != '*'
    requires (Parts(p) + rest)[0] == FirstPart(p[0]) && (Parts(p) + rest)[1..] == Parts(p[1..]) + rest
    requires
      var n := PartEnd(path, '/');
      n > 0 ==> (Accepts(Parts(p[1..]) + rest, path[1..]) <==>
                   MatchSegment(p[1..], path[1..][..n - 1]) && Accepts(rest, path[1..][n - 1..]))
    ensures
      var n := PartEnd(path, '/');
      Accepts(Parts(p) + rest, path) <==> MatchSegment(p, path[..n]) && Accepts(rest, path[n..])
  {
    var n := PartEnd(path, '/');
    StarlessTail(p);
    if n > 0 { assert path[1..][n - 1..] == path[n..] && path[..n][1..] == path[1..][..n - 1]; }
  }

  function FirstPart(c: char): Part {
    if c == '*' then Segment else if c == '?' then One else Lit(c)
  }

  lemma {:induction false} StarAccepts(p: string, rest: seq<Part>, path: string)
    requires p != [] && p[0] == '*' && Starless(p) && Starless(p[1..]) && Bounded(rest)
    requires (Parts(p) + rest)[0] == Segment && (Parts(p) + rest)[1..] == Parts(p[1..]) + rest
    ensures
      var n := PartEnd(path, '/');
      Accepts(Parts(p) + rest, path) <==> MatchSegment(p, path[..n]) && Accepts(rest, path[n..])
    decreases |p|, 0
  {
    var n := PartEnd(path, '/');
    forall k | 0 <= k <= n
      ensures Accepts(Parts(p[1..]) + rest, path[k..]) <==>
                MatchSegment(p[1..], path[..n][k..]) && Accepts(rest, path[n..])
    {
      PartEndDrop(path, k);
      SegmentAccepts(p[1..], rest, path[k..]);
      assert path[k..][..n - k] == path[..n][k..] && path[k..][n - k..] == path[n..];
    }
    StarOfSuffixes(p, Parts(p) + rest, Parts(p[1..]) + rest, rest, path);
  }

  lemma StarOfSuffixes(p: string, parts: seq<Part>, tail: seq<Part>, rest: seq<Part>, path: string)
    requires p != [] && p[0] == '*' && parts != [] && parts[0] == Segment && parts[1..] == tail
    requires
      var n := PartEnd(path, '/');
      forall k | 0 <= k <= n ::
        Accepts(tail, path[k..]) <==> MatchSegment(p[1..], path[..n][k..]) && Accepts(rest, path[n..])
    ensures
      var n := PartEnd(path, '/');
      Accepts(parts, path) <==> MatchSegment(p, path[..n]) && Accepts(rest, path[n..])
  {
    var n := PartEnd(path, '/');
    if MatchSegment(p, path[..n]) && Accepts(rest, path[n..]) {
      var k :| 0 <= k <= |path[..n]| && MatchSegment(p[1..], path[..n][k..]);
      assert Accepts(tail, path[k..]);
    }
  }

  lemma {:induction false} PartEndDrop(path: string, k: nat)
    requires k <= PartEnd(path, '/')
    ensures PartEnd(path[k..], '/') == PartEnd(path, '/') - k
  {
    if k > 0 {
      PartEndDrop(path[1..], k - 1);
      assert path[1..][k - 1..] == path[k..];
    }
  }

  /** Stepping over whole segments reaches exactly the places just behind a slash. */
  lemma {:induction false} DirsAccepts(rest: seq<Part>, path: string)
    ensures
      var n := PartEnd(path, '/');
      Accepts([Dirs] + rest, path) <==> Accepts(rest, path) || (n < |path| && Accepts([Dirs] + rest, path[n + 1..]))
    decreases |path|
  {
    var n := PartEnd(path, '/');
    assert ([Dirs] + rest)[1..] == rest;
    if n < |path| {
      var tail := path[n + 1..];
      forall k | 0 < k <= |path| && path[k - 1] == '/' && Accepts(rest, path[k..])
        ensures Accepts([Dirs] + rest, tail)
      {
        assert k >= n + 1;
        assert path[k..] == tail[k - n - 1..];
        if k > n + 1 { assert tail[k - n - 1 - 1] == path[k - 1]; }
        else { assert tail[0..] == tail; }
      }
      if Accepts([Dirs] + rest, tail) { DirsFromTail(rest, path, n); }
    }
  }

  lemma DirsFromTail(rest: seq<Part>, path: string, n: nat)
    requires n < |path| && path[n] == '/' && Accepts([Dirs] + rest, path[n + 1..])
    ensures Accepts([Dirs] + rest, path)
  {
    var tail := path[n + 1..];
    assert ([Dirs] + rest)[1..] == rest;
    if Accepts(rest, tail) {
      var k := n + 1;
      assert path[k - 1] == '/' && Accepts(rest, path[k..]);
    } else {
      var j :| 0 < j <= |tail| && tail[j - 1] == '/' && Accepts(rest, tail[j..]);
      var k := n + 1 + j;
      assert path[k - 1] == '/' && path[k..] == tail[j..];
    }
  }

  lemma StarsStart(rest: string)
    ensures Parts("**" + ("/" + rest)) == [Dirs] + Parts(rest)
  {
    var s := "**" + ("/" + rest);
    assert s[0] == '*' && s[1] == '*' && s[2] == '/' && s[3..] == rest;
  }

  lemma SlashStarts(rest: string)
    ensures Parts("/" + rest) == [Lit('/')] + Parts(rest)
  {
    assert ("/" + rest)[1..] == rest;
  }

  lemma PatternStarts(ps: seq<string>)
    requires |ps| > 1 && forall p | p in ps :: PlainSegment(p)
    ensures
      if ps[0] == "**" then Parts(Pattern(ps)) == [Dirs] + Parts(Pattern(ps[1..]))
      else Parts(Pattern(ps)) == Parts(ps[0]) + ([Lit('/')] + Parts(Pattern(ps[1..])))
  {
    var rest := Pattern(ps[1..]);
    assert Pattern(ps) == ps[0] + ("/" + rest);
    if ps[0] == "**" {
      StarsStart(rest);
    } else {
      assert ps[0] in ps;
      PartsOfSegment(ps[0], "/" + rest);
      SlashStarts(rest);
    }
  }

  /** After the last slash there is nothing but the last segment. */
  lemma SlashAccepts(rest: seq<Part>, path: string)
    ensures Accepts([Lit('/')] + rest, path) <==> path != [] && path[0] == '/' && Accepts(rest, path[1..])
  {
    assert ([Lit('/')] + rest)[1..] == rest;
  }

  lemma LastSegment(p: string, path: string)
    requires PlainSegment(p)
    ensures Accepts(Parts(p), path) <==> MatchSegments([p], Split(path, '/'))
  {
    var n := PartEnd(path, '/');
    if p == "**" {
      assert Parts(p) == [Any] && [Any][1..] == [] && path[|path|..] == [];
      assert Accepts([Any][1..], path[|path|..]);
    } else {
      SegmentAccepts(p, [], path);
      assert Parts(p) + [] == Parts(p);
      if n == |path| { assert path[..n] == path && path[n..] == []; }
    }
  }

  /** A nonempty pattern needs a segment. */
  lemma {:induction false} NothingLeft(ps: seq<string>)
    requires ps != []
    ensures !MatchSegments(ps, [])
  {
    if |ps| > 1 { NothingLeft(ps[1..]); }
  }

  function LaterSegments(path: string): seq<string> {
    var n := PartEnd(path, '/');
    if n < |path| then Split(path[n + 1..], '/') else []
  }

  lemma SplitUnfolds(path: string)
    ensures Split(path, '/') == [path[..PartEnd(path, '/')]] + LaterSegments(path)
  {
    if PartEnd(path, '/') == |path| { assert path[..|path|] == path; }
  }

  lemma SplitHead(path: string)
    ensures Split(path, '/')[0] == path[..PartEnd(path, '/')] && Split(path, '/')[1..] == LaterSegments(path)
  {
    SplitUnfolds(path);
    Cons(path[..PartEnd(path, '/')], LaterSegments(path));
  }

  lemma Cons(head: string, tail: seq<string>)
    ensures ([head] + tail)[0] == head && ([head] + tail)[1..] == tail
  {
  }

  lemma DirsSegments(ps: seq<string>, path: string)
    requires |ps| > 1 && ps[0] == "**"
    ensures
      var n := PartEnd(path, '/');
      MatchSegments(ps, Split(path, '/')) <==>
        MatchSegments(ps[1..], Split(path, '/')) || (n < |path| && MatchSegments(ps, Split(path[n + 1..], '/')))
  {
    SplitHead(path);
    NothingLeft(ps);
  }

  lemma SegmentSegments(ps: seq<string>, path: string)
    requires |ps| > 1 && ps[0] != "**"
    ensures
      var n := PartEnd(path, '/');
      MatchSegments(ps, Split(path, '/')) <==>
        MatchSegment(ps[0], path[..n]) && n < |path| && MatchSegments(ps[1..], Split(path[n + 1..], '/'))
  {
    SplitHead(path);
    NothingLeft(ps[1..]);
  }

  /** A segment and a slash, then the rest. */
  lemma SegmentSlashAccepts(p: string, rest: seq<Part>, path: string)
    requires Starless(p)
    ensures
      var n := PartEnd(path, '/');
      Accepts(Parts(p) + ([Lit('/')] + rest), path) <==>
        MatchSegment(p, path[..n]) && n < |path| && Accepts(rest, path[n + 1..])
  {
    assert Bounded([Lit('/')] + rest);
    SegmentAccepts(p, [Lit('/')] + rest, path);
    SlashAt(rest, path, PartEnd(path, '/'));
  }

  lemma SlashAt(rest: seq<Part>, path: string, n: nat)
    requires n <= |path|
    ensures Accepts([Lit('/')] + rest, path[n..]) <==> n < |path| && path[n] == '/' && Accepts(rest, path[n + 1..])
  {
    SlashAccepts(rest, path[n..]);
    if n < |path| { assert path[n..][1..] == path[n + 1..]; }
  }

  lemma DirsPattern(ps: seq<string>, path: string)
    requires |ps| > 1 && ps[0] == "**" && forall p | p in ps :: PlainSegment(p)
    ensures
      var n, parts := PartEnd(path, '/'), Parts(Pattern(ps));
      Accepts(parts, path) <==> Accepts(Parts(Pattern(ps[1..])), path) || (n < |path| && Accepts(parts, path[n + 1..]))
  {
    PatternStarts(ps);
    DirsAccepts(Parts(Pattern(ps[1..])), path);
  }

  lemma SegmentPattern(ps: seq<string>, path: string)
    requires |ps| > 1 && ps[0] != "**" && forall p | p in ps :: PlainSegment(p)
    ensures
      var n := PartEnd(path, '/');
      Accepts(Parts(Pattern(ps)), path) <==>
        MatchSegment(ps[0], path[..n]) && n < |path| && Accepts(Parts(Pattern(ps[1..])), path[n + 1..])
  {
    assert ps[0] in ps;
    PatternStarts(ps);
    SegmentSlashAccepts(ps[0], Parts(Pattern(ps[1..])), path);
  }

  /**
   For every pattern whose `**` are whole segments, the compiled expression accepts exactly the
   paths whose segments match it in the documented sense.
   */
  lemma {:induction false} CompiledIsDocumented(ps: seq<string>, path: string)
    requires ps != [] && forall p | p in ps :: PlainSegment(p)
    ensures Accepts(Parts(Pattern(ps)), path) <==> MatchSegments(ps, Split(path, '/'))
    decreases |ps|, |path|
  {
    var n := PartEnd(path, '/');
    if |ps| == 1 {
      assert ps == [ps[0]] && ps[0] in ps;
      LastSegment(ps[0], path);
    } else if ps[0] == "**" {
      CompiledIsDocumented(ps[1..], path);
      if n < |path| { CompiledIsDocumented(ps, path[n + 1..]); }
      DirsPattern(ps, path);
      DirsSegments(ps, path);
    } else {
      if n < |path| { CompiledIsDocumented(ps[1..], path[n + 1..]); }
      SegmentPattern(ps, path);
      SegmentSegments(ps, path);
    }
  }

  // ---- runs of stars inside a segment

  /** One expression behind another accepts what can be cut in two. */
  lemma {:induction false} Glue(a: seq<Part>, b: seq<Part>, path: string, i: nat)
    requires i <= |path| && Accepts(a, path[..i]) && Accepts(b, path[i..])
    ensures Accepts(a + b, path)
    decreases |a|
  {
    if a == [] {
      assert [] + b == b && path[0..] == path;
    } else {
      var head, tail := a[0], a[1..];
      assert a == [head] + tail;
      var k := Taken(head, tail, path[..i]);
      CutAgain(path, k, i);
      Glue(tail, b, path[k..], i - k);
      TakenLater(head, path, k, i);
      Takes(head, tail + b, path, k);
      Associate([head], tail, b);
    }
  }

  lemma CutAgain(path: string, k: nat, i: nat)
    requires k <= i <= |path|
    ensures path[..i][k..] == path[k..][..i - k] && path[k..][i - k..] == path[i..]
  {
  }

  lemma TakenLater(part: Part, path: string, k: nat, i: nat)
    requires i <= |path| && MayTake(part, path[..i], k)
    ensures MayTake(part, path, k)
  {
  }

  lemma {:induction false} Cut(a: seq<Part>, b: seq<Part>, path: string) returns (i: nat)
    requires Accepts(a + b, path)
    ensures i <= |path| && Accepts(a, path[..i]) && Accepts(b, path[i..])
    decreases |a|
  {
    if a == [] {
      assert [] + b == b && path[0..] == path && path[..0] == [];
      i := 0;
    } else {
      var head, tail := a[0], a[1..];
      assert a + b == [head] + (tail + b) && a == [head] + tail;
      var k := Taken(head, tail + b, path);
      var rest := Cut(tail, b, path[k..]);
      i := k + rest;
      TakenEarly(head, path, k, i);
      CutAgain(path, k, i);
      Takes(head, tail, path[..i], k);
    }
  }

  lemma TakenEarly(part: Part, path: string, k: nat, i: nat)
    requires MayTake(part, path, k) && k <= i <= |path|
    ensures MayTake(part, path[..i], k)
  {
  }

  /** The characters one part may take from the front of a path. */
  predicate MayTake(part: Part, path: string, k: nat) {
    k <= |path| &&
    match part
    case Dirs => k == 0 || path[k - 1] == '/'
    case Any => true
    case Segment => k <= PartEnd(path, '/')
    case One => k == 1 && path[0] != '/'
    case Lit(c) => k == 1 && path[0] == c
  }

  lemma Taken(part: Part, rest: seq<Part>, path: string) returns (k: nat)
    requires Accepts([part] + rest, path)
    ensures MayTake(part, path, k) && Accepts(rest, path[k..])
  {
    assert ([part] + rest)[1..] == rest && path[0..] == path;
    match part
    case Dirs =>
      if Accepts(rest, path) { k := 0; }
      else { k :| 0 < k <= |path| && path[k - 1] == '/' && Accepts(rest, path[k..]); }
    case Any => k :| 0 <= k <= |path| && Accepts(rest, path[k..]);
    case Segment => k :| 0 <= k <= PartEnd(path, '/') && Accepts(rest, path[k..]);
    case One => k := 1;
    case Lit(c) => k := 1;
  }

  lemma Takes(part: Part, rest: seq<Part>, path: string, k: nat)
    requires MayTake(part, path, k) && Accepts(rest, path[k..])
    ensures Accepts([part] + rest, path)
  {
    assert ([part] + rest)[1..] == rest && path[0..] == path;
  }

  /** The path is a text of `before`, a text the part may take, and a text of `after`. */
  ghost predicate Between(before: seq<Part>, part: Part, after: seq<Part>, path: string) {
    exists i: nat, j: nat | i <= j <= |path| ::
      Accepts(before, path[..i]) && MayTake(part, path[i..], j - i) && Accepts(after, path[j..])
  }

  lemma CutAround(before: seq<Part>, part: Part, after: seq<Part>, path: string)
    requires Accepts(before + ([part] + after), path)
    ensures Between(before, part, after, path)
  {
    var i := Cut(before, [part] + after, path);
    var k := Taken(part, after, path[i..]);
    assert path[i..][k..] == path[i + k..];
    var j := i + k;
    assert Accepts(before, path[..i]) && MayTake(part, path[i..], j - i) && Accepts(after, path[j..]);
  }

  lemma GlueAround(before: seq<Part>, part: Part, after: seq<Part>, path: string)
    requires Between(before, part, after, path)
    ensures Accepts(before + ([part] + after), path)
  {
    var i: nat, j: nat :| i <= j <= |path| && Accepts(before, path[..i]) &&
                          MayTake(part, path[i..], j - i) && Accepts(after, path[j..]);
    assert path[i..][j - i..] == path[j..];
    Takes(part, after, path[i..], j - i);
    Glue(before, [part] + after, path, i);
  }

  lemma AroundPart(before: seq<Part>, part: Part, after: seq<Part>, path: string)
    ensures Accepts(before + ([part] + after), path) <==> Between(before, part, after, path)
  {
    if Accepts(before + ([part] + after), path) { CutAround(before, part, after, path); }
    if Between(before, part, after, path) { GlueAround(before, part, after, path); }
  }

  /**
   Wherever it stands, `**` takes any text across segments; with a slash behind it, it takes any
   number of whole directories and may take none, also where it does not lead the pattern.
   */
  lemma StarsCrossSegments(before: string, after: string, path: string)
    requires before == [] || before[|before| - 1] != '*'
    ensures after == [] || after[0] != '/' ==>
              (Accepts(Parts(before + ("**" + after)), path) <==> Between(Parts(before), Any, Parts(after), path))
    ensures Accepts(Parts(before + ("**" + ("/" + after))), path) <==>
              Between(Parts(before), Dirs, Parts(after), path)
  {
    var stars := "**" + after;
    assert stars[0] == '*' && stars[1] == '*' && stars[2..] == after;
    PartsAppend(before, stars);
    PartsAppend(before, "**" + ("/" + after));
    StarsStart(after);
    AroundPart(Parts(before), Any, Parts(after), path);
    AroundPart(Parts(before), Dirs, Parts(after), path);
  }

  // ---- every pattern, piece by piece

  /** What the dialect lets one token of a pattern stand for. */
  predicate StandsFor(part: Part, piece: string) {
    match part
    case Dirs => piece == [] || piece[|piece| - 1] == '/'
    case Any => true
    case Segment => '/' !in piece
    case One => |piece| == 1 && piece[0] != '/'
    case Lit(c) => piece == [c]
  }

  function Pieced(pieces: seq<string>): string {
    if pieces == [] then [] else pieces[0] + Pieced(pieces[1..])
  }

  /** The path falls into pieces, one for each token, each what its token may stand for. */
  ghost predicate FallsInto(parts: seq<Part>, pieces: seq<string>, path: string) {
    |pieces| == |parts| && Pieced(pieces) == path && forall i | 0 <= i < |parts| :: StandsFor(parts[i], pieces[i])
  }

  lemma TakesPiece(part: Part, path: string, k: nat)
    requires k <= |path|
    ensures MayTake(part, path, k) <==> StandsFor(part, path[..k])
  {
    var piece := path[..k];
    assert forall i | 0 <= i < k :: piece[i] == path[i];
    if part == Segment {
      if k <= PartEnd(path, '/') { assert forall i | 0 <= i < k :: piece[i] != '/'; }
      else { assert piece[PartEnd(path, '/')] == '/'; }
    }
  }

  lemma {:induction false} AcceptedFalls(parts: seq<Part>, path: string) returns (pieces: seq<string>)
    requires Accepts(parts, path)
    ensures FallsInto(parts, pieces, path)
    decreases |parts|
  {
    if parts == [] {
      pieces := [];
    } else {
      assert parts == [parts[0]] + parts[1..];
      var k := Taken(parts[0], parts[1..], path);
      TakesPiece(parts[0], path, k);
      var rest := AcceptedFalls(parts[1..], path[k..]);
      pieces := [path[..k]] + rest;
      assert pieces[1..] == rest && path == path[..k] + path[k..];
    }
  }

  lemma {:induction false} FallingAccepted(parts: seq<Part>, pieces: seq<string>, path: string)
    requires FallsInto(parts, pieces, path)
    ensures Accepts(parts, path)
    decreases |parts|
  {
    if parts != [] {
      var k := |pieces[0]|;
      assert path[..k] == pieces[0] && path[k..] == Pieced(pieces[1..]);
      FallingAccepted(parts[1..], pieces[1..], path[k..]);
      TakesPiece(parts[0], path, k);
      assert parts == [parts[0]] + parts[1..];
      Takes(parts[0], parts[1..], path, k);
    }
  }

  /**
   Any pattern whatever: the compiled expression accepts exactly the paths that fall into pieces, one
   for each token of the pattern, each of which the dialect lets the token stand for.
   */
  lemma CompiledByPieces(pattern: string, path: string)
    ensures Accepts(Parts(pattern), path) <==> exists pieces :: FallsInto(Parts(pattern), pieces, path)
  {
    if Accepts(Parts(pattern), path) {
      var pieces := AcceptedFalls(Parts(pattern), path);
    }
    if pieces :| FallsInto(Parts(pattern), pieces, path) { FallingAccepted(Parts(pattern), pieces, path); }
  }
}

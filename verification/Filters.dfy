/**
 One pattern dialect, two consumers: the local scan filters paths itself, and the sync phase hands
 the same globs to rclone as rules. Which patterns keep their meaning on the way, and on which paths,
 is proved exactly, for patterns without the characters only rclone gives a meaning to.
 */
module Filters {
  import opened Texts
  import opened Globs

  datatype FiltersConfig = FiltersConfig(includes: seq<string>, excludes: seq<string>)

  /** The scan normalises both the pattern and the path. */
  ghost predicate Matches(pattern: string, path: string) {
    Accepts(Parts(Normalized(pattern)), Normalized(path))
  }

  /** `path_matches`: excludes win, and includes are a whitelist if there are any. */
  ghost predicate PathMatches(f: FiltersConfig, path: string) {
    && (forall p | p in f.excludes :: !Matches(p, path))
    && (f.includes == [] || exists p :: p in f.includes && Matches(p, path))
  }

  /** Without backslashes, leading slashes and newlines, so that the scan reads the path as it is. */
  predicate Relative(path: string) {
    Normalized(path) == path && '\n' !in path
  }

  predicate StartsWith(s: string, prefix: string) {
    |prefix| <= |s| && s[..|prefix|] == prefix
  }

  /** `to_rclone_pattern`. */
  function ToRclone(pattern: string): string {
    var s := Slashed(pattern);
    if StartsWith(s, "**/") then s[3..] else if StartsWith(s, "/") then s else "/" + s
  }

  // ---- rclone

  /** rclone's own compilation: `**` is any text wherever it stands. */
  function RcloneParts(s: string): seq<Part> {
    if s == [] then []
    else if s[0] == '*' then
      if |s| >= 2 && s[1] == '*' then [Any] + RcloneParts(s[2..]) else [Segment] + RcloneParts(s[1..])
    else if s[0] == '?' then [One] + RcloneParts(s[1..])
    else [Lit(s[0])] + RcloneParts(s[1..])
  }

  /** A place a floating pattern may begin at: the start of the path or behind a slash. */
  predicate Boundary(path: string, k: nat) {
    k <= |path| && (k == 0 || path[k - 1] == '/')
  }

  predicate EndsWithSlash(s: string) {
    s != [] && s[|s| - 1] == '/'
  }

  /** Rooted or floating. */
  ghost predicate RcloneFile(pattern: string, path: string) {
    if StartsWith(pattern, "/") then Accepts(RcloneParts(pattern[1..]), path)
    else exists k: nat :: Boundary(path, k) && Accepts(RcloneParts(pattern), path[k..])
  }

  /** A trailing slash means directories: including one lets no file in, excluding one drops all below it. */
  ghost predicate RcloneMatches(includes: bool, pattern: string, path: string) {
    if !EndsWithSlash(pattern) then RcloneFile(pattern, path)
    else !includes && RcloneFile(pattern + "**", path)
  }

  /** First match decides among `--filter` rules; a file no rule matches is included. */
  ghost predicate Included(args: seq<string>, path: string)
    decreases |args|
  {
    if |args| < 2 then true
    else
      var rule := args[1];
      if args[0] == "--filter" && |rule| >= 2 && RcloneMatches(rule[0] == '+', rule[2..], path) then rule[0] == '+'
      else Included(args[2..], path)
  }

  function Sign(includes: bool): string {
    if includes then "+ " else "- "
  }

  function Rules(sign: string, patterns: seq<string>): seq<string> {
    if patterns == [] then [] else ["--filter", sign + ToRclone(patterns[0])] + Rules(sign, patterns[1..])
  }

  /** A nonempty list of includes is closed: directories stay walkable, every other file is out. */
  function Closing(f: FiltersConfig): seq<string> {
    if f.includes == [] then [] else ["--filter", "+ */", "--filter", "- **"]
  }

  function RcloneArgs(f: FiltersConfig): seq<string> {
    Rules(Sign(false), f.excludes) + (Rules(Sign(true), f.includes) + Closing(f))
  }

  lemma {:induction false} RulesSnoc(sign: string, patterns: seq<string>, p: string)
    ensures Rules(sign, patterns + [p]) == Rules(sign, patterns) + ["--filter", sign + ToRclone(p)]
  {
    if patterns == [] {
      assert [] + [p] == [p] && [p][1..] == [];
    } else {
      assert (patterns + [p])[1..] == patterns[1..] + [p];
      RulesSnoc(sign, patterns[1..], p);
    }
  }

  /** `rclone_filter_args`. */
  method RcloneFilterArgs(f: FiltersConfig) returns (args: seq<string>)
    ensures args == RcloneArgs(f)
  {
    var minus := AddRules(Sign(false), f.excludes);
    var plus := AddRules(Sign(true), f.includes);
    args := minus + (plus + Closing(f));
  }

  method AddRules(sign: string, patterns: seq<string>) returns (args: seq<string>)
    ensures args == Rules(sign, patterns)
  {
    args := [];
    for i := 0 to |patterns|
      invariant args == Rules(sign, patterns[..i])
    {
      assert patterns[..i + 1] == patterns[..i] + [patterns[i]];
      RulesSnoc(sign, patterns[..i], patterns[i]);
      var rule := sign + ToRclone(patterns[i]);
      args := args + ["--filter", rule];
    }
    assert patterns[..|patterns|] == patterns;
  }

  // ---- first match equals the scan's filter

  /** A translated pattern matches the files its original matches. */
  ghost predicate SameMeaning(includes: bool, p: string, path: string) {
    RcloneMatches(includes, ToRclone(p), path) <==> Matches(p, path)
  }

  lemma RuleDecides(sign: string, pattern: string, rest: seq<string>, path: string)
    requires |sign| == 2
    ensures
      var args := ["--filter", sign + pattern] + rest;
      Included(args, path) <==>
        if RcloneMatches(sign[0] == '+', pattern, path) then sign[0] == '+' else Included(rest, path)
  {
    var args := ["--filter", sign + pattern] + rest;
    assert args[1] == sign + pattern && (sign + pattern)[2..] == pattern && args[2..] == rest;
  }

  lemma {:induction false} RulesDecide(includes: bool, patterns: seq<string>, rest: seq<string>, path: string)
    requires forall p | p in patterns :: SameMeaning(includes, p, path)
    ensures Included(Rules(Sign(includes), patterns) + rest, path) <==>
              if exists p :: p in patterns && Matches(p, path) then includes else Included(rest, path)
  {
    if patterns == [] {
      assert Rules(Sign(includes), patterns) + rest == rest;
    } else {
      var p, tail := patterns[0], Rules(Sign(includes), patterns[1..]) + rest;
      assert Rules(Sign(includes), patterns) + rest == ["--filter", Sign(includes) + ToRclone(p)] + tail;
      assert p in patterns && SameMeaning(includes, p, path);
      RuleDecides(Sign(includes), ToRclone(p), tail, path);
      assert forall q | q in patterns[1..] :: q in patterns;
      RulesDecide(includes, patterns[1..], rest, path);
      assert forall q :: q in patterns <==> q == p || q in patterns[1..];
    }
  }

  /** Two stars match every file. */
  lemma CatchAll(path: string)
    ensures RcloneMatches(false, "**", path)
  {
    assert "**"[2..] == [] && RcloneParts("**") == [Any] + [];
    assert [Any][1..] == [] && path[|path|..] == [] && Accepts([Any][1..], path[|path|..]);
    assert Boundary(path, 0) && path[0..] == path;
  }

  // The closing rules: one for directories lets no file in, the catch-all keeps every file out.
  lemma ClosingRules(path: string)
    ensures !Included(["--filter", "+ */", "--filter", "- **"], path)
  {
    CatchAll(path);
    assert "+ " + "*/" == "+ */" && "- " + "**" == "- **";
    RuleDecides("- ", "**", [], path);
    RuleDecides("+ ", "*/", ["--filter", "- " + "**"] + [], path);
    assert ["--filter", "+ */", "--filter", "- **"] == ["--filter", "+ " + "*/"] + (["--filter", "- " + "**"] + []);
  }

  /** rclone's rules let through exactly the files the scan accepts, where each pattern keeps its meaning. */
  lemma RulesMatchScan(f: FiltersConfig, path: string)
    requires forall p | p in f.excludes :: SameMeaning(false, p, path)
    requires forall p | p in f.includes :: SameMeaning(true, p, path)
    ensures Included(RcloneArgs(f), path) <==> PathMatches(f, path)
  {
    RulesDecide(false, f.excludes, Rules(Sign(true), f.includes) + Closing(f), path);
    RulesDecide(true, f.includes, Closing(f), path);
    if f.includes != [] { ClosingRules(path); }
  }

  // ---- when a translated pattern keeps its meaning

  /** No newline, and no classes, alternatives or runs of three stars, which mean something to rclone alone. */
  predicate Common(pattern: string) {
    && (forall c | c in pattern :: c !in {'[', ']', '{', '}', '\n'})
    && forall i | 0 <= i < |pattern| - 2 :: !(pattern[i] == '*' && pattern[i + 1] == '*' && pattern[i + 2] == '*')
  }

  predicate Floating(pattern: string) {
    StartsWith(Slashed(pattern), "**/")
  }

  /** The pattern without a leading `**` segment or slash. */
  function Core(pattern: string): string {
    var s := Slashed(pattern);
    if StartsWith(s, "**/") then s[3..] else if StartsWith(s, "/") then s[1..] else s
  }

  /** Nothing but a leading `**` stands before a slash as `**`, so both compilers read the rest alike. */
  predicate NoInnerDirs(s: string) {
    Dirs !in Parts(s)
  }

  /** A pattern both dialects read alike: no inner `**` before a slash, no doubled leading or trailing slash. */
  predicate Portable(pattern: string) {
    && Common(pattern) && Core(pattern) != [] && !EndsWithSlash(Core(pattern)) && !StartsWith(Core(pattern), "/")
    && NoInnerDirs(Core(pattern))
  }

  lemma FirstIsSlash(s: string)
    ensures StartsWith(s, "/") <==> s != [] && s[0] == '/'
  {
    if s != [] { assert s[..1] == [s[0]]; }
  }

  lemma StarsAreFirst(s: string)
    ensures StartsWith(s, "**/") <==> |s| >= 3 && s[0] == '*' && s[1] == '*' && s[2] == '/'
  {
    if |s| >= 3 { assert s[..3] == [s[0], s[1], s[2]]; }
  }

  /** How both consumers see a pattern, in terms of its core. */
  lemma Shapes(pattern: string)
    ensures ToRclone(pattern) == if Floating(pattern) then Core(pattern) else "/" + Core(pattern)
    ensures !StartsWith(Core(pattern), "/") ==>
              Parts(Normalized(pattern)) == (if Floating(pattern) then [Dirs] else []) + Parts(Core(pattern))
    ensures StartsWith(Core(pattern), "/") && Floating(pattern) ==>
              Parts(Normalized(pattern)) == [Dirs] + Parts(Core(pattern))
  {
    var s, core := Slashed(pattern), Core(pattern);
    FirstIsSlash(s);
    FirstIsSlash(core);
    StarsAreFirst(s);
    if StartsWith(s, "**/") {
      assert Normalized(pattern) == s;
    } else if StartsWith(s, "/") {
      assert s == "/" + core;
      if !StartsWith(core, "/") { assert Normalized(pattern) == Unrooted(core) == core; }
    } else {
      assert Normalized(pattern) == s;
    }
    assert [] + Parts(core) == Parts(core);
  }

  lemma {:induction false} CompilersAgree(s: string)
    requires NoInnerDirs(s)
    ensures RcloneParts(s) == Parts(s)
  {
    if s != [] {
      assert forall p | p in Parts(s)[1..] :: p in Parts(s);
      if s[0] == '*' && |s| >= 2 && s[1] == '*' {
        var dirs := |s| >= 3 && s[2] == '/';
        assert Parts(s) == [if dirs then Dirs else Any] + Parts(s[if dirs then 3 else 2..]);
        assert Parts(s)[0] in Parts(s);
        CompilersAgree(s[2..]);
      } else {
        CompilersAgree(s[1..]);
      }
    }
  }

  /** A floating rule matches exactly what a leading `**` segment matches. */
  lemma FloatingIsDirs(rest: seq<Part>, path: string)
    ensures Accepts([Dirs] + rest, path) <==> exists k: nat :: Boundary(path, k) && Accepts(rest, path[k..])
  {
    assert ([Dirs] + rest)[1..] == rest;
    if Accepts(rest, path) {
      assert Boundary(path, 0) && path[0..] == path;
    } else if Accepts([Dirs] + rest, path) {
      var k :| 0 < k <= |path| && path[k - 1] == '/' && Accepts(rest, path[k..]);
      assert Boundary(path, k);
    }
    if k: nat :| Boundary(path, k) && Accepts(rest, path[k..]) {
      if k == 0 { assert path[0..] == path; }
    }
  }

  lemma PortableParts(pattern: string)
    requires Portable(pattern)
    ensures
      var core := Core(pattern);
      && ToRclone(pattern) == (if Floating(pattern) then core else "/" + core) && !EndsWithSlash(ToRclone(pattern))
      && Parts(Normalized(pattern)) == (if Floating(pattern) then [Dirs] + Parts(core) else Parts(core))
      && RcloneParts(core) == Parts(core)
  {
    var core := Core(pattern);
    Shapes(pattern);
    CompilersAgree(core);
    assert ("/" + core)[|core|] == core[|core| - 1];
    assert [] + Parts(core) == Parts(core);
  }

  /** Portable patterns keep their meaning: stripping a leading `**` segment makes the rule float. */
  lemma PortableKeepsMeaning(includes: bool, pattern: string, path: string)
    requires Portable(pattern) && Relative(path)
    ensures SameMeaning(includes, pattern, path)
  {
    var core := Core(pattern);
    PortableParts(pattern);
    FirstIsSlash("/" + core);
    assert ("/" + core)[1..] == core;
    FloatingIsDirs(Parts(core), path);
  }

  /** So for portable filters both phases see the same relative paths, whatever the tree holds. */
  lemma PortableFiltersAgree(f: FiltersConfig, path: string)
    requires Relative(path) && forall p | p in f.excludes + f.includes :: Portable(p)
    ensures Included(RcloneArgs(f), path) <==> PathMatches(f, path)
  {
    forall p | p in f.excludes ensures SameMeaning(false, p, path) {
      assert p in f.excludes + f.includes;
      PortableKeepsMeaning(false, p, path);
    }
    forall p | p in f.includes ensures SameMeaning(true, p, path) {
      assert p in f.excludes + f.includes;
      PortableKeepsMeaning(true, p, path);
    }
    RulesMatchScan(f, path);
  }
}

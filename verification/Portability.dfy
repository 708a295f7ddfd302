/**
 Exactly which patterns keep their meaning on their way to rclone, and exactly on which paths. A
 pattern is told apart by one path it should match, its thinnest; a path by a pattern of its shape.
 */
module Portability {
  import opened Texts
  import opened Globs
  import opened Filters

  // ---- file paths

  /** Segments are nonempty; `start` says whether a segment is about to begin. */
  predicate Solid(start: bool, path: string)
    decreases |path|
  {
    if path == [] then !start
    else if path[0] == '/' then !start && Solid(true, path[1..])
    else Solid(false, path[1..])
  }

  /** No character that the scan rewrites or that ends a line. */
  predicate Clean(s: string) {
    '\\' !in s && '\n' !in s
  }

  /** A relative posix path as the scan finds it. */
  predicate FilePath(path: string) {
    Solid(true, path) && Clean(path)
  }

  lemma {:induction false} SolidAnywhere(path: string)
    requires Solid(true, path)
    ensures Solid(false, path)
  {
  }

  lemma {:induction false} SlashedIsSame(s: string)
    requires '\\' !in s
    ensures Slashed(s) == s
  {
  }

  lemma FilePathIsRelative(path: string)
    requires FilePath(path)
    ensures Relative(path)
  {
    SlashedIsSame(path);
  }

  /** Behind any prefix of a solid path a segment begins exactly after a slash. */
  lemma {:induction false} SolidSuffix(start: bool, path: string, k: nat)
    requires Solid(start, path) && k <= |path|
    ensures Solid(if k == 0 then start else path[k - 1] == '/', path[k..])
    decreases k
  {
    if k == 0 {
      assert path[0..] == path;
    } else {
      SolidSuffix(path[0] == '/', path[1..], k - 1);
      assert path[1..][k - 1..] == path[k..];
    }
  }

  // ---- the thinnest path of a pattern

  /** One character for every star and question mark, no directory where none is needed. */
  function Thinnest(parts: seq<Part>): string {
    if parts == [] then []
    else
      (match parts[0]
       case Dirs => []
       case Lit(c) => [c]
       case _ => ['x'])
      + Thinnest(parts[1..])
  }

  lemma {:induction false} ThinnestAccepted(parts: seq<Part>)
    ensures Accepts(parts, Thinnest(parts))
  {
    if parts != [] {
      var rest := Thinnest(parts[1..]);
      ThinnestAccepted(parts[1..]);
      match parts[0]
      case Dirs => assert [] + rest == rest;
      case Lit(c) => assert ([c] + rest)[1..] == rest;
      case One => assert (['x'] + rest)[1..] == rest;
      case Any => assert (['x'] + rest)[1..] == rest;
      case Segment =>
        assert (['x'] + rest)[1..] == rest;
        assert PartEnd(['x'] + rest, '/') >= 1;
    }
  }

  /** If an expression accepts a solid path at all, its thinnest path is solid. */
  lemma {:induction false} ThinnestSolid(parts: seq<Part>, start: bool, path: string)
    requires Accepts(parts, path) && Solid(start, path)
    ensures Solid(start, Thinnest(parts))
    decreases |parts|
  {
    if parts != [] {
      var rest := Thinnest(parts[1..]);
      match parts[0]
      case Dirs =>
        assert [] + rest == rest;
        if Accepts(parts[1..], path) {
          ThinnestSolid(parts[1..], start, path);
        } else {
          var k :| 0 < k <= |path| && path[k - 1] == '/' && Accepts(parts[1..], path[k..]);
          SolidSuffix(start, path, k);
          ThinnestSolid(parts[1..], true, path[k..]);
          SolidAnywhere(rest);
        }
      case Lit(c) =>
        ThinnestSolid(parts[1..], c == '/', path[1..]);
        assert ([c] + rest)[1..] == rest;
      case One =>
        ThinnestSolid(parts[1..], false, path[1..]);
        assert (['x'] + rest)[1..] == rest;
      case Any =>
        var k :| 0 <= k <= |path| && Accepts(parts[1..], path[k..]);
        ThinnestBehindStar(parts, start, path, k);
      case Segment =>
        var k :| 0 <= k <= PartEnd(path, '/') && Accepts(parts[1..], path[k..]);
        ThinnestBehindStar(parts, start, path, k);
    }
  }

  lemma {:induction false} ThinnestBehindStar(parts: seq<Part>, start: bool, path: string, k: nat)
    requires parts != [] && (parts[0] == Any || parts[0] == Segment) && Solid(start, path)
    requires k <= |path| && Accepts(parts[1..], path[k..])
    ensures Solid(start, Thinnest(parts))
    decreases |parts|, 0
  {
    var rest, begins := Thinnest(parts[1..]), if k == 0 then start else path[k - 1] == '/';
    SolidSuffix(start, path, k);
    ThinnestSolid(parts[1..], begins, path[k..]);
    if begins { SolidAnywhere(rest); }
    assert (['x'] + rest)[1..] == rest;
  }

  /** Only the literals of a pattern show in its thinnest path. */
  predicate Unescaped(parts: seq<Part>) {
    Lit('\\') !in parts && Lit('\n') !in parts
  }

  lemma {:induction false} ThinnestUnescaped(parts: seq<Part>)
    requires Unescaped(parts)
    ensures Clean(Thinnest(parts))
  {
    if parts != [] {
      assert parts[0] in parts && forall p | p in parts[1..] :: p in parts;
      ThinnestUnescaped(parts[1..]);
    }
  }

  lemma UnescapedTail(s: string, k: nat)
    requires Clean(s) && k <= |s|
    ensures Clean(s[k..])
  {
    assert forall c | c in s[k..] :: c in s;
  }

  lemma {:induction false} PartsUnescaped(s: string)
    requires Clean(s)
    ensures Unescaped(Parts(s))
    decreases |s|
  {
    if s != [] {
      assert s[0] in s;
      var width := if s[0] != '*' || |s| < 2 || s[1] != '*' then 1 else if |s| >= 3 && s[2] == '/' then 3 else 2;
      UnescapedTail(s, width);
      PartsUnescaped(s[width..]);
    }
  }

  lemma {:induction false} RclonePartsUnescaped(s: string)
    requires Clean(s)
    ensures Unescaped(RcloneParts(s))
    decreases |s|
  {
    if s != [] {
      assert s[0] in s;
      var width := if s[0] != '*' || |s| < 2 || s[1] != '*' then 1 else 2;
      UnescapedTail(s, width);
      RclonePartsUnescaped(s[width..]);
    }
  }

  // ---- counting slashes

  function Slashes(path: string): nat {
    if path == [] then 0 else (if path[0] == '/' then 1 else 0) + Slashes(path[1..])
  }

  /** The slashes an expression always needs, and the directories it can do without. */
  function Needed(parts: seq<Part>): nat {
    if parts == [] then 0 else (if parts[0] == Lit('/') then 1 else 0) + Needed(parts[1..])
  }

  function Optional(parts: seq<Part>): nat {
    if parts == [] then 0 else (if parts[0] == Dirs then 1 else 0) + Optional(parts[1..])
  }

  lemma {:induction false} SuffixHasFewer(path: string, k: nat)
    requires k <= |path|
    ensures Slashes(path[k..]) <= Slashes(path)
  {
    if k == 0 {
      assert path[0..] == path;
    } else {
      SuffixHasFewer(path[1..], k - 1);
      assert path[1..][k - 1..] == path[k..];
    }
  }

  lemma {:induction false} AcceptedHasNeeded(parts: seq<Part>, path: string)
    requires Accepts(parts, path)
    ensures Slashes(path) >= Needed(parts)
    decreases |parts|
  {
    if parts != [] {
      var rest := parts[1..];
      match parts[0]
      case Dirs =>
        if Accepts(rest, path) { AcceptedHasNeeded(rest, path); }
        else {
          var k :| 0 < k <= |path| && path[k - 1] == '/' && Accepts(rest, path[k..]);
          AcceptedHasNeeded(rest, path[k..]);
          SuffixHasFewer(path, k);
        }
      case Any =>
        var k :| 0 <= k <= |path| && Accepts(rest, path[k..]);
        AcceptedHasNeeded(rest, path[k..]);
        SuffixHasFewer(path, k);
      case Segment =>
        var k :| 0 <= k <= PartEnd(path, '/') && Accepts(rest, path[k..]);
        AcceptedHasNeeded(rest, path[k..]);
        SuffixHasFewer(path, k);
      case One => AcceptedHasNeeded(rest, path[1..]);
      case Lit(c) => AcceptedHasNeeded(rest, path[1..]);
    }
  }

  lemma {:induction false} ThinnestHasNeeded(parts: seq<Part>)
    ensures Slashes(Thinnest(parts)) == Needed(parts)
  {
    if parts != [] {
      var rest := Thinnest(parts[1..]);
      ThinnestHasNeeded(parts[1..]);
      match parts[0]
      case Dirs => assert [] + rest == rest;
      case Lit(c) => assert ([c] + rest)[1..] == rest;
      case _ => assert (['x'] + rest)[1..] == rest;
    }
  }

  lemma NeededAdds(p: Part, parts: seq<Part>)
    ensures Needed([p] + parts) == (if p == Lit('/') then 1 else 0) + Needed(parts)
    ensures Optional([p] + parts) == (if p == Dirs then 1 else 0) + Optional(parts)
  {
    assert ([p] + parts)[1..] == parts;
  }

  /** Where the scan may skip a directory, rclone needs its slash. */
  lemma {:induction false} RcloneNeedsMore(s: string)
    ensures Needed(RcloneParts(s)) == Needed(Parts(s)) + Optional(Parts(s))
    decreases |s|
  {
    if s != [] {
      if s[0] == '*' && |s| >= 3 && s[1] == '*' && s[2] == '/' {
        RcloneNeedsMore(s[3..]);
        assert s[2..][1..] == s[3..];
        assert RcloneParts(s) == [Any] + ([Lit('/')] + RcloneParts(s[3..]));
        NeededAdds(Any, [Lit('/')] + RcloneParts(s[3..]));
        NeededAdds(Lit('/'), RcloneParts(s[3..]));
        NeededAdds(Dirs, Parts(s[3..]));
      } else if s[0] == '*' && |s| >= 2 && s[1] == '*' {
        RcloneNeedsMore(s[2..]);
        NeededAdds(Any, RcloneParts(s[2..]));
        NeededAdds(Any, Parts(s[2..]));
      } else {
        RcloneNeedsMore(s[1..]);
        NeededAdds(FirstPart(s[0]), RcloneParts(s[1..]));
        NeededAdds(FirstPart(s[0]), Parts(s[1..]));
      }
    }
  }

  lemma {:induction false} OptionalIsInner(parts: seq<Part>)
    ensures Optional(parts) > 0 <==> Dirs in parts
  {
    if parts != [] {
      OptionalIsInner(parts[1..]);
      assert parts == [parts[0]] + parts[1..];
    }
  }

  // ---- what each consumer can match

  /** The scan can match some file path. */
  predicate ScanCan(pattern: string) {
    Solid(true, Thinnest(Parts(Normalized(pattern))))
  }

  /** What rclone compiles: the rule without its leading slash, a directory rule standing for all below it. */
  function TheirText(pattern: string): string {
    var core := Core(pattern);
    var whole := if EndsWithSlash(ToRclone(pattern)) then core + "**" else core;
    if Floating(pattern) && StartsWith(core, "/") then whole[1..] else whole
  }

  predicate Anchored(pattern: string) {
    !Floating(pattern) || StartsWith(Core(pattern), "/")
  }

  /** rclone can match some file path. */
  predicate RcloneCan(includes: bool, pattern: string) {
    !(includes && EndsWithSlash(ToRclone(pattern))) && Solid(true, Thinnest(RcloneParts(TheirText(pattern))))
  }

  ghost predicate Somewhere(parts: seq<Part>, path: string) {
    exists k: nat :: Boundary(path, k) && Accepts(parts, path[k..])
  }

  lemma TheirRule(includes: bool, pattern: string, path: string)
    ensures
      RcloneMatches(includes, ToRclone(pattern), path) <==>
        && !(includes && EndsWithSlash(ToRclone(pattern)))
        && var parts := RcloneParts(TheirText(pattern));
           if Anchored(pattern) then Accepts(parts, path) else Somewhere(parts, path)
  {
    var core, rule := Core(pattern), ToRclone(pattern);
    var glob := if EndsWithSlash(rule) then rule + "**" else rule;
    Shapes(pattern);
    FirstIsSlash(core);
    FirstIsSlash(glob);
    if !Floating(pattern) { assert glob[1..] == TheirText(pattern); }
  }

  lemma {:induction false} SlashedUnescaped(s: string)
    requires '\n' !in s
    ensures Clean(Slashed(s))
  {
  }

  lemma {:induction false} UnrootedIsSuffix(s: string)
    ensures exists k :: 0 <= k <= |s| && Unrooted(s) == s[k..]
  {
    if s != [] && s[0] == '/' {
      UnrootedIsSuffix(s[1..]);
      var k :| 0 <= k <= |s[1..]| && Unrooted(s[1..]) == s[1..][k..];
      assert s[1..][k..] == s[k + 1..];
    } else {
      assert s[0..] == s;
    }
  }

  lemma NormalizedUnescaped(pattern: string)
    requires Common(pattern)
    ensures Clean(Normalized(pattern))
  {
    SlashedUnescaped(pattern);
    UnrootedIsSuffix(Slashed(pattern));
    var k :| 0 <= k <= |Slashed(pattern)| && Normalized(pattern) == Slashed(pattern)[k..];
    UnescapedTail(Slashed(pattern), k);
  }

  lemma TheirTextUnescaped(pattern: string)
    requires Common(pattern)
    ensures Clean(TheirText(pattern))
  {
    var s, core := Slashed(pattern), Core(pattern);
    SlashedUnescaped(pattern);
    UnescapedTail(s, |s| - |core|);
    assert core == s[|s| - |core|..];
    var whole := if EndsWithSlash(ToRclone(pattern)) then core + "**" else core;
    assert Clean(whole);
    if Floating(pattern) && StartsWith(core, "/") { UnescapedTail(whole, 1); }
  }

  /** The path by which a pattern is judged. */
  function Witness(pattern: string): string {
    Thinnest(Parts(Normalized(pattern)))
  }

  lemma WitnessMatches(pattern: string)
    requires Common(pattern) && ScanCan(pattern)
    ensures FilePath(Witness(pattern)) && Matches(pattern, Witness(pattern))
  {
    var parts := Parts(Normalized(pattern));
    NormalizedUnescaped(pattern);
    PartsUnescaped(Normalized(pattern));
    ThinnestUnescaped(parts);
    FilePathIsRelative(Witness(pattern));
    ThinnestAccepted(parts);
  }

  lemma ScanCannot(pattern: string, path: string)
    requires !ScanCan(pattern) && FilePath(path)
    ensures !Matches(pattern, path)
  {
    FilePathIsRelative(path);
    if Matches(pattern, path) { ThinnestSolid(Parts(Normalized(pattern)), true, path); }
  }

  lemma RcloneCannot(includes: bool, pattern: string, path: string)
    requires !RcloneCan(includes, pattern) && FilePath(path)
    ensures !RcloneMatches(includes, ToRclone(pattern), path)
  {
    var parts := RcloneParts(TheirText(pattern));
    TheirRule(includes, pattern, path);
    if RcloneMatches(includes, ToRclone(pattern), path) {
      if Anchored(pattern) {
        ThinnestSolid(parts, true, path);
      } else {
        var k: nat :| Boundary(path, k) && Accepts(parts, path[k..]);
        SolidSuffix(true, path, k);
        ThinnestSolid(parts, true, path[k..]);
      }
    }
  }

  lemma RcloneMatchesIts(includes: bool, pattern: string)
    requires Common(pattern) && RcloneCan(includes, pattern)
    ensures
      var path := Thinnest(RcloneParts(TheirText(pattern)));
      FilePath(path) && RcloneMatches(includes, ToRclone(pattern), path)
  {
    var parts := RcloneParts(TheirText(pattern));
    var path := Thinnest(parts);
    TheirTextUnescaped(pattern);
    RclonePartsUnescaped(TheirText(pattern));
    ThinnestUnescaped(parts);
    ThinnestAccepted(parts);
    TheirRule(includes, pattern, path);
    assert Boundary(path, 0) && path[0..] == path;
  }

  // ---- the witness against rclone

  lemma {:induction false} NeededOfAppended(s: string)
    requires EndsWithSlash(s)
    ensures Needed(RcloneParts(s + "**")) == Needed(RcloneParts(s))
    decreases |s|
  {
    if s == "/" {
      assert ("/" + "**")[1..] == "**" && "**"[2..] == "";
      assert RcloneParts("**") == [Any];
    } else {
      var width := if s[0] == '*' && s[1] == '*' then 2 else 1;
      assert (s + "**")[width..] == s[width..] + "**" && (s + "**")[0] == s[0] && (s + "**")[1] == s[1];
      if width < |s| { NeededOfAppended(s[width..]); }
      var head := if s[0] == '*' then if s[1] == '*' then Any else Segment else FirstPart(s[0]);
      NeededAdds(head, RcloneParts(s[width..]));
      NeededAdds(head, RcloneParts(s[width..] + "**"));
    }
  }

  lemma TooFewSlashes(parts: seq<Part>, path: string)
    requires Slashes(path) < Needed(parts)
    ensures !Accepts(parts, path) && !Somewhere(parts, path)
  {
    if Accepts(parts, path) { AcceptedHasNeeded(parts, path); }
    if k: nat :| Boundary(path, k) && Accepts(parts, path[k..]) {
      AcceptedHasNeeded(parts, path[k..]);
      SuffixHasFewer(path, k);
    }
  }

  /** Without skippable directories the thinnest path of a text ends as the text does. */
  lemma {:induction false} ThinnestEnds(s: string)
    requires EndsWithSlash(s) && NoInnerDirs(s)
    ensures EndsWithSlash(Thinnest(Parts(s)))
    decreases |s|
  {
    var width := if s[0] == '*' && |s| >= 2 && s[1] == '*' then 2 else 1;
    assert Parts(s)[0] in Parts(s) && forall p | p in Parts(s)[1..] :: p in Parts(s);
    if width < |s| { ThinnestEnds(s[width..]); }
  }

  lemma {:induction false} SolidEnds(start: bool, path: string)
    requires EndsWithSlash(path)
    ensures !Solid(start, path)
    decreases |path|
  {
    if |path| > 1 {
      SolidEnds(true, path[1..]);
      SolidEnds(false, path[1..]);
    }
  }

  lemma DirsFirst(parts: seq<Part>)
    ensures Thinnest([Dirs] + parts) == Thinnest(parts) && Needed([Dirs] + parts) == Needed(parts)
  {
    assert ([Dirs] + parts)[1..] == parts && [] + Thinnest(parts) == Thinnest(parts);
  }

  /** The witness is the thinnest path of the core. */
  lemma WitnessOfCore(pattern: string)
    requires Floating(pattern) || !StartsWith(Core(pattern), "/")
    ensures Witness(pattern) == Thinnest(Parts(Core(pattern)))
  {
    Shapes(pattern);
    DirsFirst(Parts(Core(pattern)));
    assert [] + Parts(Core(pattern)) == Parts(Core(pattern));
  }

  lemma SlashFirst(s: string)
    requires StartsWith(s, "/")
    ensures Parts(s) == [Lit('/')] + Parts(s[1..]) && RcloneParts(s) == [Lit('/')] + RcloneParts(s[1..])
  {
    FirstIsSlash(s);
  }

  /** A pattern whose witness is a path, and that is not portable, has a core with text and no slash in front. */
  lemma BadCore(pattern: string)
    requires ScanCan(pattern) && (Floating(pattern) || !StartsWith(Core(pattern), "/"))
    ensures Core(pattern) != [] && !StartsWith(Core(pattern), "/")
    ensures NoInnerDirs(Core(pattern)) ==> !EndsWithSlash(Core(pattern))
  {
    var core := Core(pattern);
    WitnessOfCore(pattern);
    if StartsWith(core, "/") { SlashFirst(core); }
    if EndsWithSlash(core) && NoInnerDirs(core) {
      ThinnestEnds(core);
      SolidEnds(true, Witness(pattern));
    }
  }

  lemma DoubledSlashRejects(pattern: string, path: string)
    requires !Floating(pattern) && StartsWith(Core(pattern), "/") && Solid(true, path)
    ensures !Accepts(RcloneParts(TheirText(pattern)), path)
  {
    var text := TheirText(pattern);
    FirstIsSlash(Core(pattern));
    FirstIsSlash(text);
    SlashFirst(text);
    SlashAccepts(RcloneParts(text[1..]), path);
  }

  lemma WitnessHasTooFew(pattern: string)
    requires !StartsWith(Core(pattern), "/") && !NoInnerDirs(Core(pattern))
    ensures Slashes(Witness(pattern)) < Needed(RcloneParts(TheirText(pattern)))
  {
    var core := Core(pattern);
    WitnessOfCore(pattern);
    ThinnestHasNeeded(Parts(core));
    RcloneNeedsMore(core);
    OptionalIsInner(Parts(core));
    Shapes(pattern);
    if EndsWithSlash(ToRclone(pattern)) && core != [] { NeededOfAppended(core); }
  }

  lemma WitnessIsRejected(includes: bool, pattern: string)
    requires Common(pattern) && ScanCan(pattern) && !Portable(pattern)
    ensures !RcloneMatches(includes, ToRclone(pattern), Witness(pattern))
  {
    TheirRule(includes, pattern, Witness(pattern));
    if !Floating(pattern) && StartsWith(Core(pattern), "/") {
      DoubledSlashRejects(pattern, Witness(pattern));
    } else {
      BadCore(pattern);
      WitnessHasTooFew(pattern);
      TooFewSlashes(RcloneParts(TheirText(pattern)), Witness(pattern));
    }
  }

  /**
   The patterns that keep their meaning on every file path are exactly the portable ones, and those
   that neither consumer can match with any path.
   */
  lemma KeepsMeaningExactly(includes: bool, pattern: string)
    requires Common(pattern)
    ensures
      (forall path | FilePath(path) :: SameMeaning(includes, pattern, path)) <==>
        if ScanCan(pattern) then Portable(pattern) else !RcloneCan(includes, pattern)
  {
    if ScanCan(pattern) {
      if Portable(pattern) {
        forall path | FilePath(path) ensures SameMeaning(includes, pattern, path) {
          FilePathIsRelative(path);
          PortableKeepsMeaning(includes, pattern, path);
        }
      } else {
        WitnessMatches(pattern);
        WitnessIsRejected(includes, pattern);
        assert FilePath(Witness(pattern)) && !SameMeaning(includes, pattern, Witness(pattern));
      }
    } else if RcloneCan(includes, pattern) {
      var path := Thinnest(RcloneParts(TheirText(pattern)));
      RcloneMatchesIts(includes, pattern);
      ScanCannot(pattern, path);
      assert FilePath(path) && !SameMeaning(includes, pattern, path);
    } else {
      forall path | FilePath(path) ensures SameMeaning(includes, pattern, path) {
        ScanCannot(pattern, path);
        RcloneCannot(includes, pattern, path);
      }
    }
  }

  /** An inner `**` before a slash is any number of directories to the scan, and at least one to rclone. */
  lemma InnerStarsDiffer(includes: bool)
    ensures exists path :: FilePath(path) && !SameMeaning(includes, "a**/b", path)
  {
    KeepsMeaningExactly(includes, "a**/b");
    InnerStarsParts();
    InnerStarsWitness();
    assert [Lit('a'), Dirs, Lit('b')][1] == Dirs;
  }

  lemma InnerStarsWitness()
    ensures Thinnest([Lit('a'), Dirs, Lit('b')]) == "ab" && Solid(true, "ab")
  {
    assert [Lit('a'), Dirs, Lit('b')] == [Lit('a')] + ([Dirs] + [Lit('b')]);
    ThinnestAdds(Lit('a'), [Dirs] + [Lit('b')]);
    ThinnestAdds(Dirs, [Lit('b')]);
    assert [Lit('b')] == [Lit('b')] + [];
    ThinnestAdds(Lit('b'), []);
    assert "ab"[1..] == "b" && "b"[1..] == "";
  }

  lemma ThinnestAdds(p: Part, parts: seq<Part>)
    ensures Thinnest([p] + parts) == (match p case Dirs => [] case Lit(c) => [c] case _ => ['x']) + Thinnest(parts)
  {
    assert ([p] + parts)[1..] == parts;
  }

  lemma InnerStarsCore()
    ensures Normalized("a**/b") == "a**/b" == Core("a**/b")
  {
    SlashedIsSame("a**/b");
  }

  lemma InnerStarsParts()
    ensures Normalized("a**/b") == "a**/b" == Core("a**/b")
    ensures Parts("a**/b") == [Lit('a'), Dirs, Lit('b')]
  {
    InnerStarsCore();
    assert "a**/b" == ['a'] + ("**" + ("/" + "b")) && "b" == ['b'] + [];
    PartsOfChar('a', "**" + ("/" + "b"));
    StarsStart("b");
    PartsOfChar('b', []);
  }

  // ---- exactly which paths

  /** The pattern matching the paths with the slashes where this one has them. */
  function Shape(path: string): (shape: string)
    ensures |shape| == |path| && forall i | 0 <= i < |path| :: shape[i] == if path[i] == '/' then '/' else '?'
  {
    if path == [] then [] else [if path[0] == '/' then '/' else '?'] + Shape(path[1..])
  }

  function ShapeParts(path: string): seq<Part> {
    if path == [] then [] else [if path[0] == '/' then Lit('/') else One] + ShapeParts(path[1..])
  }

  lemma {:induction false} PartsOfShape(path: string, rest: string)
    ensures Parts(Shape(path) + rest) == ShapeParts(path) + Parts(rest)
    ensures Dirs !in ShapeParts(path)
  {
    if path == [] {
      assert [] + rest == rest;
    } else {
      var c := if path[0] == '/' then '/' else '?';
      assert Shape(path) + rest == [c] + (Shape(path[1..]) + rest);
      PartsOfChar(c, Shape(path[1..]) + rest);
      PartsOfShape(path[1..], rest);
      Associate([if c == '/' then Lit('/') else One], ShapeParts(path[1..]), Parts(rest));
    }
  }

  /** A tail that matches nothing more. */
  predicate Tail(parts: seq<Part>) {
    parts == [] || parts == [Segment]
  }

  lemma {:induction false} ShapeAccepts(path: string, tail: seq<Part>)
    requires Tail(tail)
    ensures Accepts(ShapeParts(path) + tail, path)
  {
    if path == [] {
      assert [] + tail == tail;
      assert Accepts([Segment][1..], path[0..]);
    } else {
      assert (ShapeParts(path) + tail)[1..] == ShapeParts(path[1..]) + tail;
      ShapeAccepts(path[1..], tail);
    }
  }

  /** It accepts no shorter path, and none with other slashes. */
  lemma {:induction false} ShapeIsKept(path: string, tail: seq<Part>, other: string)
    requires Tail(tail) && Accepts(ShapeParts(path) + tail, other)
    ensures |other| >= |path| && forall i | 0 <= i < |path| :: other[i] == '/' <==> path[i] == '/'
  {
    if path != [] {
      assert (ShapeParts(path) + tail)[1..] == ShapeParts(path[1..]) + tail;
      ShapeIsKept(path[1..], tail, other[1..]);
      forall i | 0 <= i < |path| ensures other[i] == '/' <==> path[i] == '/' {
        if i > 0 { assert other[i] == other[1..][i - 1] && path[i] == path[1..][i - 1]; }
      }
    }
  }

  /** A pattern of the shape of a path that does not begin with a slash. */
  function Likeness(path: string): string {
    Shape(path) + if path == [] || EndsWithSlash(path) then "*" else ""
  }

  lemma LikenessIsCommon(path: string)
    ensures Common(Likeness(path)) && '\\' !in Likeness(path)
  {
    var p := Likeness(path);
    assert forall i | 0 <= i < |path| :: p[i] == Shape(path)[i];
    assert forall i | 0 <= i < |p| :: p[i] in {'/', '?', '*'};
  }

  lemma LikenessEnds(path: string)
    requires path == [] || path[0] != '/'
    ensures
      var p := Likeness(path);
      p != [] && (p[0] == '?' || p == "*") && !EndsWithSlash(p)
  {
    if path == [] { assert Shape([]) + "*" == "*"; }
    else if EndsWithSlash(path) { assert Likeness(path)[0] == Shape(path)[0]; }
    else { assert Likeness(path) == Shape(path); }
  }

  lemma LikenessIsItsCore(path: string)
    requires path == [] || path[0] != '/'
    ensures
      var p := Likeness(path);
      !Floating(p) && Core(p) == p == Normalized(p)
  {
    var p := Likeness(path);
    LikenessEnds(path);
    LikenessIsCommon(path);
    SlashedIsSame(p);
    FirstIsSlash(p);
    StarsAreFirst(p);
  }

  lemma LikenessParts(path: string)
    ensures exists tail :: Tail(tail) && Parts(Likeness(path)) == ShapeParts(path) + tail
    ensures NoInnerDirs(Likeness(path))
  {
    var rest := if path == [] || EndsWithSlash(path) then "*" else "";
    PartsOfShape(path, rest);
    assert "*"[1..] == [] && Tail(Parts(rest));
  }

  lemma LikenessIsPortable(path: string)
    requires path == [] || path[0] != '/'
    ensures
      var p := Likeness(path);
      && Portable(p) && !Floating(p) && Core(p) == p == Normalized(p)
      && exists tail :: Tail(tail) && Parts(p) == ShapeParts(path) + tail
  {
    LikenessIsCommon(path);
    LikenessEnds(path);
    LikenessIsItsCore(path);
    LikenessParts(path);
    FirstIsSlash(Likeness(path));
  }

  lemma TailRejects(tail: seq<Part>, path: string)
    requires Tail(tail) && path != [] && path[0] == '/'
    ensures !Accepts([] + tail, path)
  {
    assert [] + tail == tail;
    assert [Segment][1..] == [];
  }

  lemma {:induction false} UnrootedShrinks(s: string)
    ensures |Unrooted(s)| <= |s| && (|Unrooted(s)| == |s| ==> Unrooted(s) == s)
    ensures s != [] && s[0] == '/' ==> |Unrooted(s)| < |s|
    ensures Unrooted(s) == [] || Unrooted(s)[0] != '/'
  {
    if s != [] && s[0] == '/' { UnrootedShrinks(s[1..]); }
  }

  /** A path whose slashes are where its normal form has them is its own normal form. */
  lemma SameSlashes(path: string)
    requires |Normalized(path)| >= |path| && '\n' !in path
    requires forall i | 0 <= i < |path| :: Normalized(path)[i] == '/' <==> path[i] == '/'
    ensures Relative(path)
  {
    UnrootedShrinks(Slashed(path));
    assert Normalized(path) == Slashed(path);
    assert forall i | 0 <= i < |path| :: Slashed(path)[i] == path[i];
  }

  /** Of a path that does not begin with a slash only rclone sees the shape. */
  lemma OwnLikeness(includes: bool, path: string)
    requires !Relative(path) && '\n' !in path && path != [] && path[0] != '/'
    ensures Portable(Likeness(path)) && !SameMeaning(includes, Likeness(path), path)
  {
    var p := Likeness(path);
    LikenessIsPortable(path);
    var tail :| Tail(tail) && Parts(p) == ShapeParts(path) + tail;
    RootedMeaning(includes, p, path);
    ShapeAccepts(path, tail);
    if Matches(p, path) {
      ShapeIsKept(path, tail, Normalized(path));
      SameSlashes(path);
    }
  }

  /** Of a path that begins with a slash only the scan sees the rest. */
  lemma RestsLikeness(includes: bool, path: string)
    requires path != [] && path[0] == '/'
    ensures Portable(Likeness(Normalized(path))) && !SameMeaning(includes, Likeness(Normalized(path)), path)
  {
    var rest := Normalized(path);
    var p := Likeness(rest);
    UnrootedShrinks(Slashed(path));
    LikenessIsPortable(rest);
    var tail :| Tail(tail) && Parts(p) == ShapeParts(rest) + tail;
    RootedMeaning(includes, p, path);
    ShapeAccepts(rest, tail);
    TailRejects(tail, path);
    if Accepts(Parts(p), path) { ShapeIsKept(rest, tail, path); }
  }

  lemma RootedMeaning(includes: bool, p: string, path: string)
    requires Portable(p) && !Floating(p) && Core(p) == p && Normalized(p) == p
    ensures SameMeaning(includes, p, path) <==> (Accepts(Parts(p), path) <==> Accepts(Parts(p), Normalized(path)))
  {
    PortableParts(p);
    FirstIsSlash("/" + p);
    assert ("/" + p)[1..] == p;
  }

  lemma RelativeMeans(path: string)
    ensures Relative(path) <==> Clean(path) && (path == [] || path[0] != '/')
  {
    UnrootedShrinks(Slashed(path));
    if Relative(path) { assert forall i | 0 <= i < |path| :: Slashed(path)[i] == path[i]; }
    if '\\' !in path { SlashedIsSame(path); }
  }

  /** The paths on which every portable pattern keeps its meaning are exactly those the scan does not normalise. */
  lemma PathsExactly(includes: bool, path: string)
    requires '\n' !in path
    ensures
      (forall p | Portable(p) :: SameMeaning(includes, p, path)) <==>
        '\\' !in path && (path == [] || path[0] != '/')
  {
    RelativeMeans(path);
    if Relative(path) {
      forall p | Portable(p) ensures SameMeaning(includes, p, path) { PortableKeepsMeaning(includes, p, path); }
    } else if path[0] == '/' {
      RestsLikeness(includes, path);
    } else {
      OwnLikeness(includes, path);
    }
  }

  /** A file whose name holds a backslash: the scan drops it as if it lay in a directory, rclone fetches it. */
  lemma BackslashNamesDiffer()
    ensures Portable("a/*") && Matches("a/*", "a\\b") && !RcloneMatches(false, ToRclone("a/*"), "a\\b")
  {
    BackslashPattern();
    BackslashParts();
    BackslashAccepts();
    RootedMeaning(false, "a/*", "a\\b");
  }

  lemma BackslashAccepts()
    ensures
      var parts := [Lit('a')] + ([Lit('/')] + [Segment]);
      Accepts(parts, ['a'] + (['/'] + "b")) && !Accepts(parts, ['a'] + (['\\'] + "b"))
  {
    StarAcceptsB();
    LiteralAccepts('/', [Segment], "b");
    SlashAccepts([Segment], ['\\'] + "b");
    LiteralAccepts('a', [Lit('/')] + [Segment], ['/'] + "b");
    LiteralAccepts('a', [Lit('/')] + [Segment], ['\\'] + "b");
  }

  lemma StarAcceptsB()
    ensures Accepts([Segment], "b")
  {
    assert [Segment][1..] == [] && "b"[1..] == [] && PartEnd("b", '/') == 1;
    assert Accepts([Segment][1..], "b"[1..]);
  }

  lemma LiteralAccepts(c: char, rest: seq<Part>, path: string)
    ensures Accepts([Lit(c)] + rest, [c] + path) <==> Accepts(rest, path)
  {
    assert ([Lit(c)] + rest)[1..] == rest && ([c] + path)[1..] == path;
  }

  lemma BackslashPattern()
    ensures Portable("a/*") && !Floating("a/*") && Core("a/*") == "a/*" == Normalized("a/*")
  {
    SlashedIsSame("a/*");
    FirstIsSlash("a/*");
    BackslashParts();
  }

  lemma BackslashParts()
    ensures Parts("a/*") == [Lit('a')] + ([Lit('/')] + [Segment])
    ensures Normalized("a\\b") == ['a'] + (['/'] + "b") && "a\\b" == ['a'] + (['\\'] + "b")
  {
    assert "a/*" == ['a'] + ("/" + "*") && "*"[1..] == [];
    PartsOfChar('a', "/" + "*");
    PartsOfChar('/', "*");
    assert Slashed("a\\b") == "a/b" == ['a'] + (['/'] + "b");
  }
}

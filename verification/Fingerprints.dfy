/**
 The parameter fingerprint that forces a re-embed: the SHA-256 of eleven fields joined by `|`. The
 digest is taken as injective, so the question is what the joined text determines. Two of the
 fields are free text from the settings and the first is a free-text model name.
 */
module Fingerprints {
  import opened Ids
  import opened Texts

  datatype Strategy = Auto | Markdown | Paragraph | SheetRows | Slide

  datatype Chunking = Chunking(strategy: Strategy, words: nat, overlap: nat)

  /** What of a job and of the settings shapes chunks and vectors. */
  datatype JobParams = JobParams(model: string, chunking: Chunking, expand: bool)

  datatype Settings = Settings(ocrLanguage: string, pdfStrategy: string, sniff: bool, sheetRows: int, minChars: int)

  function StrategyText(s: Strategy): string {
    match s
    case Auto => "auto"
    case Markdown => "markdown"
    case Paragraph => "paragraph"
    case SheetRows => "sheet_rows"
    case Slide => "slide"
  }

  function BoolText(b: bool): string {
    if b then "True" else "False"
  }

  function IntText(n: int): string {
    if n < 0 then "-" + Decimal(-n) else Decimal(n)
  }

  function JobParts(j: JobParams): seq<string> {
    [j.model, StrategyText(j.chunking.strategy), Decimal(j.chunking.words), Decimal(j.chunking.overlap)]
  }

  function SettingsParts(version: nat, s: Settings): seq<string> {
    [Decimal(version), s.ocrLanguage, s.pdfStrategy, BoolText(s.sniff), IntText(s.sheetRows), IntText(s.minChars)]
  }

  /** The text under the digest; `version` is CHUNKER_VERSION. */
  function Fingerprint(version: nat, j: JobParams, s: Settings): string {
    Join(JobParts(j) + SettingsParts(version, s) + [BoolText(j.expand)], "|")
  }

  predicate Barless(s: string) {
    '|' !in s
  }

  lemma {:induction false} JoinAppend(a: seq<string>, b: seq<string>)
    requires a != [] && b != []
    ensures Join(a + b, "|") == Join(a, "|") + "|" + Join(b, "|")
    decreases |b|
  {
    var n := |b| - 1;
    assert (a + b)[..|a + b| - 1] == a + b[..n];
    if n == 0 {
      assert a + b[..n] == a;
    } else {
      JoinAppend(a, b[..n]);
      assert (Join(a, "|") + "|" + Join(b[..n], "|")) + "|" + b[n] ==
             Join(a, "|") + "|" + (Join(b[..n], "|") + "|" + b[n]);
    }
  }

  lemma TextsAreBarless(st: Strategy, b: bool, n: int)
    ensures Barless(StrategyText(st)) && Barless(BoolText(b)) && Barless(IntText(n))
  {
  }

  lemma TextsInjective(st: Strategy, st': Strategy, b: bool, b': bool, m: int, n: int)
    ensures StrategyText(st) == StrategyText(st') ==> st == st'
    ensures BoolText(b) == BoolText(b') ==> b == b'
    ensures IntText(m) == IntText(n) ==> m == n
  {
    assert |BoolText(true)| != |BoolText(false)|;
    if IntText(m) == IntText(n) {
      assert m < 0 <==> IntText(m)[0] == '-' by { assert m >= 0 ==> Decimal(m)[0] in Decimal(m); }
      assert n < 0 <==> IntText(n)[0] == '-' by { assert n >= 0 ==> Decimal(n)[0] in Decimal(n); }
      if m < 0 {
        assert IntText(m)[1..] == Decimal(-m) && IntText(n)[1..] == Decimal(-n);
        DecimalInjective(-m, -n);
      } else {
        DecimalInjective(m, n);
      }
    }
    if StrategyText(st) == StrategyText(st') {
      assert |StrategyText(st)| == |StrategyText(st')|;
      assert StrategyText(st)[0] == StrategyText(st')[0];
    }
  }

  // ---- the text by its fields

  /** The text split at every `|`: three free texts may be several fields each. */
  function Fields(version: nat, j: JobParams, s: Settings): seq<string> {
    Split(j.model, '|') + Own(version, j) + (Split(s.ocrLanguage, '|') + Split(s.pdfStrategy, '|')) + Last(j, s)
  }

  function Own(version: nat, j: JobParams): seq<string> {
    [StrategyText(j.chunking.strategy), Decimal(j.chunking.words), Decimal(j.chunking.overlap), Decimal(version)]
  }

  function Last(j: JobParams, s: Settings): seq<string> {
    [BoolText(s.sniff), IntText(s.sheetRows), IntText(s.minChars), BoolText(j.expand)]
  }

  lemma BarlessSplit(s: string)
    ensures Barless(s) <==> Split(s, '|') == [s]
  {
    SplitParts(s, '|');
    if Barless(s) { PartEndIs(s, '|', ""); } else { assert s in [s]; }
  }

  lemma {:induction false} SplitOfBarless(parts: seq<string>)
    requires parts != [] && forall p | p in parts :: Barless(p)
    ensures Split(Join(parts, "|"), '|') == parts
  {
    SplitOfJoin(parts, '|');
  }

  lemma SplitOfAppended(a: seq<string>, b: seq<string>)
    requires a != [] && b != []
    ensures Split(Join(a + b, "|"), '|') == Split(Join(a, "|"), '|') + Split(Join(b, "|"), '|')
  {
    JoinAppend(a, b);
    SplitAround(Join(a, "|"), '|', Join(b, "|"));
  }

  lemma SplitOfThree(a: seq<string>, b: seq<string>, c: seq<string>)
    requires a != [] && b != [] && c != []
    ensures
      Split(Join(a + (b + c), "|"), '|') ==
        Split(Join(a, "|"), '|') + (Split(Join(b, "|"), '|') + Split(Join(c, "|"), '|'))
  {
    SplitOfAppended(a, b + c);
    SplitOfAppended(b, c);
  }

  lemma SplitOfTwo(a: string, b: string)
    ensures Split(Join([a, b], "|"), '|') == Split(a, '|') + Split(b, '|')
  {
    assert [a, b] == [a] + [b];
    SplitOfAppended([a], [b]);
  }

  lemma TextByGroups(version: nat, j: JobParams, s: Settings)
    ensures
      JobParts(j) + SettingsParts(version, s) + [BoolText(j.expand)] ==
        [j.model] + (Own(version, j) + ([s.ocrLanguage, s.pdfStrategy] + Last(j, s)))
  {
  }

  lemma SplitOfGroups(model: string, own: seq<string>, language: string, pdf: string, last: seq<string>)
    requires own != [] && last != []
    requires Split(Join(own, "|"), '|') == own && Split(Join(last, "|"), '|') == last
    ensures
      Split(Join([model] + (own + ([language, pdf] + last)), "|"), '|') ==
        Split(model, '|') + (own + ((Split(language, '|') + Split(pdf, '|')) + last))
  {
    SplitOfTwo(language, pdf);
    SplitOfThree(own, [language, pdf], last);
    SplitOfAppended([model], own + ([language, pdf] + last));
  }

  lemma Grouped<T>(a: seq<T>, b: seq<T>, c: seq<T>, d: seq<T>)
    ensures a + (b + (c + d)) == a + b + c + d
  {
  }

  lemma FieldsOfText(version: nat, j: JobParams, s: Settings)
    ensures Split(Fingerprint(version, j, s), '|') == Fields(version, j, s)
  {
    var own, last := Own(version, j), Last(j, s);
    TextByGroups(version, j, s);
    OwnAreBarless(version, j, s);
    SplitOfBarless(own);
    SplitOfBarless(last);
    SplitOfGroups(j.model, own, s.ocrLanguage, s.pdfStrategy, last);
    Grouped(Split(j.model, '|'), own, Split(s.ocrLanguage, '|') + Split(s.pdfStrategy, '|'), last);
  }

  lemma OwnAreBarless(version: nat, j: JobParams, s: Settings)
    ensures forall p | p in Own(version, j) + Last(j, s) :: Barless(p)
  {
    TextsAreBarless(j.chunking.strategy, j.expand, version);
    TextsAreBarless(j.chunking.strategy, s.sniff, j.chunking.words);
    TextsAreBarless(j.chunking.strategy, s.sniff, j.chunking.overlap);
    TextsAreBarless(j.chunking.strategy, s.sniff, s.sheetRows);
    TextsAreBarless(j.chunking.strategy, s.sniff, s.minChars);
  }

  /** Two parameter sets share a fingerprint exactly if they agree field by field. */
  lemma SameByFields(version: nat, j: JobParams, s: Settings, version': nat, j': JobParams, s': Settings)
    ensures Fingerprint(version, j, s) == Fingerprint(version', j', s') <==>
            Fields(version, j, s) == Fields(version', j', s')
  {
    FieldsOfText(version, j, s);
    FieldsOfText(version', j', s');
    SplitInjective(Fingerprint(version, j, s), Fingerprint(version', j', s'), '|');
  }

  predicate SameNumbers(s: Settings, s': Settings) {
    s.sniff == s'.sniff && s.sheetRows == s'.sheetRows && s.minChars == s'.minChars
  }

  lemma LastInjective(j: JobParams, j': JobParams, s: Settings, s': Settings)
    requires Last(j, s) == Last(j', s')
    ensures SameNumbers(s, s') && j.expand == j'.expand
  {
    var a, b := Last(j, s), Last(j', s');
    assert a[0] == b[0] && a[1] == b[1] && a[2] == b[2] && a[3] == b[3];
    TextsInjective(Auto, Auto, s.sniff, s'.sniff, s.sheetRows, s'.sheetRows);
    TextsInjective(Auto, Auto, j.expand, j'.expand, s.minChars, s'.minChars);
  }

  ghost predicate IsStrategy(t: string) {
    exists st: Strategy :: t == StrategyText(st)
  }

  ghost predicate IsNumber(t: string) {
    exists n: nat :: t == Decimal(n)
  }

  ghost predicate ParametersAt(fields: seq<string>, i: nat) {
    && i + 4 <= |fields| && IsStrategy(fields[i])
    && IsNumber(fields[i + 1]) && IsNumber(fields[i + 2]) && IsNumber(fields[i + 3])
  }

  lemma FieldsAt(version: nat, j: JobParams, s: Settings)
    ensures
      var fields, m := Fields(version, j, s), |Split(j.model, '|')|;
      && |fields| == m + 8 + |Split(s.ocrLanguage, '|')| + |Split(s.pdfStrategy, '|')|
      && fields[..m] == Split(j.model, '|') && fields[m..m + 4] == Own(version, j)
      && fields[m + 4..|fields| - 4] == Split(s.ocrLanguage, '|') + Split(s.pdfStrategy, '|')
      && fields[|fields| - 4..] == Last(j, s)
      && ParametersAt(fields, m)
  {
    var fields, m := Fields(version, j, s), |Split(j.model, '|')|;
    assert fields[m] == StrategyText(j.chunking.strategy) && fields[m + 1] == Decimal(j.chunking.words);
    assert fields[m + 2] == Decimal(j.chunking.overlap) && fields[m + 3] == Decimal(version);
  }

  lemma OwnInjective(version: nat, j: JobParams, version': nat, j': JobParams)
    requires Own(version, j) == Own(version', j')
    ensures version == version' && j.chunking == j'.chunking
  {
    var a, b := Own(version, j), Own(version', j');
    assert a[0] == b[0] && a[1] == b[1] && a[2] == b[2] && a[3] == b[3];
    TextsInjective(j.chunking.strategy, j'.chunking.strategy, true, true, 0, 0);
    DecimalInjective(j.chunking.words, j'.chunking.words);
    DecimalInjective(j.chunking.overlap, j'.chunking.overlap);
    DecimalInjective(version, version');
  }

  /** Where the own fields stand in the same place, all that is not free text agrees. */
  lemma SamePlaceSameRest(version: nat, j: JobParams, s: Settings, version': nat, j': JobParams, s': Settings)
    requires Fields(version, j, s) == Fields(version', j', s')
    requires |Split(j.model, '|')| == |Split(j'.model, '|')|
    ensures version == version' && j == j' && SameNumbers(s, s')
    ensures Split(s.ocrLanguage, '|') + Split(s.pdfStrategy, '|') ==
            Split(s'.ocrLanguage, '|') + Split(s'.pdfStrategy, '|')
  {
    FieldsAt(version, j, s);
    FieldsAt(version', j', s');
    SplitInjective(j.model, j'.model, '|');
    OwnInjective(version, j, version', j');
    LastInjective(j, j', s, s');
  }

  /**
   Under one set of settings, whatever text they hold, two jobs share a fingerprint exactly if
   nothing that shapes their chunks or vectors differs, although a model name may contain `|`.
   */
  lemma JobsShareExactly(version: nat, j: JobParams, j': JobParams, s: Settings)
    ensures Fingerprint(version, j, s) == Fingerprint(version, j', s) <==> j == j'
  {
    SameByFields(version, j, s, version, j', s);
    if Fields(version, j, s) == Fields(version, j', s) {
      FieldsAt(version, j, s);
      FieldsAt(version, j', s);
      SamePlaceSameRest(version, j, s, version, j', s);
    }
  }

  /** Among settings whose texts hold no `|` the fingerprint is exact, across versions, jobs and settings. */
  lemma FingerprintExact(version: nat, version': nat, j: JobParams, j': JobParams, s: Settings, s': Settings)
    requires Barless(s.ocrLanguage) && Barless(s.pdfStrategy) && Barless(s'.ocrLanguage) && Barless(s'.pdfStrategy)
    ensures Fingerprint(version, j, s) == Fingerprint(version', j', s') <==> version == version' && j == j' && s == s'
  {
    SameByFields(version, j, s, version', j', s');
    BarlessSplit(s.ocrLanguage);
    BarlessSplit(s.pdfStrategy);
    BarlessSplit(s'.ocrLanguage);
    BarlessSplit(s'.pdfStrategy);
    if Fields(version, j, s) == Fields(version', j', s') {
      FieldsAt(version, j, s);
      FieldsAt(version', j', s');
      SamePlaceSameRest(version, j, s, version', j', s');
      OneEach(Split(s'.ocrLanguage, '|'), Split(s'.pdfStrategy, '|'), s.ocrLanguage, s.pdfStrategy);
    }
  }

  lemma OneEach<T>(a: seq<T>, b: seq<T>, x: T, y: T)
    requires a != [] && b != [] && a + b == [x] + [y]
    ensures a == [x] && b == [y]
  {
    assert |a + b| == 2 && |a| == 1 && |b| == 1;
    assert (a + b)[0] == a[0] && (a + b)[1] == b[0];
  }

  // ---- exactly which settings share a fingerprint

  /** For one job under one version: the two texts together count, not where one ends. */
  lemma SettingsShareExactly(version: nat, j: JobParams, s: Settings, s': Settings)
    ensures
      Fingerprint(version, j, s) == Fingerprint(version, j, s') <==>
        SameNumbers(s, s') && s.ocrLanguage + "|" + s.pdfStrategy == s'.ocrLanguage + "|" + s'.pdfStrategy
  {
    SameByFields(version, j, s, version, j, s');
    SplitAround(s.ocrLanguage, '|', s.pdfStrategy);
    SplitAround(s'.ocrLanguage, '|', s'.pdfStrategy);
    SplitInjective(s.ocrLanguage + "|" + s.pdfStrategy, s'.ocrLanguage + "|" + s'.pdfStrategy, '|');
    var front := Split(j.model, '|') + Own(version, j);
    var a := Split(s.ocrLanguage, '|') + Split(s.pdfStrategy, '|');
    var b := Split(s'.ocrLanguage, '|') + Split(s'.pdfStrategy, '|');
    assert Fields(version, j, s) == front + a + Last(j, s) && Fields(version, j, s') == front + b + Last(j, s');
    if Fields(version, j, s) == Fields(version, j, s') {
      MiddleCancels(front, a, Last(j, s), b, Last(j, s'));
      LastInjective(j, j, s, s');
    }
  }

  lemma MiddleCancels<T>(front: seq<T>, a: seq<T>, x: seq<T>, b: seq<T>, y: seq<T>)
    requires |x| == |y| && front + a + x == front + b + y
    ensures a == b && x == y
  {
    var s, t := front + a + x, front + b + y;
    assert |a| == |b|;
    assert a == s[|front|..|front| + |a|] && b == t[|front|..|front| + |b|];
    assert x == s[|front| + |a|..] && y == t[|front| + |b|..];
  }

  /** Some other settings share the fingerprint exactly if one of the two texts holds a `|`. */
  lemma SettingsCollideExactly(version: nat, j: JobParams, s: Settings)
    ensures
      (exists s' :: s' != s && Fingerprint(version, j, s) == Fingerprint(version, j, s')) <==>
        !(Barless(s.ocrLanguage) && Barless(s.pdfStrategy))
  {
    if s' :| s' != s && Fingerprint(version, j, s) == Fingerprint(version, j, s') {
      SettingsShareExactly(version, j, s, s');
      if Barless(s.ocrLanguage) && Barless(s.pdfStrategy) { OneWayToSplit(s, s'); }
    }
    if !(Barless(s.ocrLanguage) && Barless(s.pdfStrategy)) {
      var s' := Moved(s);
      MovedSplits(s);
      SettingsShareExactly(version, j, s, s');
      assert s' != s && Fingerprint(version, j, s) == Fingerprint(version, j, s');
    }
  }

  lemma OneWayToSplit(s: Settings, s': Settings)
    requires Barless(s.ocrLanguage) && Barless(s.pdfStrategy)
    requires s.ocrLanguage + "|" + s.pdfStrategy == s'.ocrLanguage + "|" + s'.pdfStrategy
    ensures s.ocrLanguage == s'.ocrLanguage && s.pdfStrategy == s'.pdfStrategy
  {
    SplitAround(s.ocrLanguage, '|', s.pdfStrategy);
    SplitAround(s'.ocrLanguage, '|', s'.pdfStrategy);
    BarlessSplit(s.ocrLanguage);
    BarlessSplit(s.pdfStrategy);
    OneEach(Split(s'.ocrLanguage, '|'), Split(s'.pdfStrategy, '|'), s.ocrLanguage, s.pdfStrategy);
    SplitInjective(s.ocrLanguage, s'.ocrLanguage, '|');
    SplitInjective(s.pdfStrategy, s'.pdfStrategy, '|');
  }

  /** One of the texts moved across the bar between them, up to a bar of its own. */
  function Moved(s: Settings): Settings
    requires !(Barless(s.ocrLanguage) && Barless(s.pdfStrategy))
  {
    var a, b := s.ocrLanguage, s.pdfStrategy;
    var m, n := PartEnd(a, '|'), PartEnd(b, '|');
    if m < |a| then s.(ocrLanguage := a[..m], pdfStrategy := a[m + 1..] + "|" + b)
    else if n < |b| then s.(ocrLanguage := a + "|" + b[..n], pdfStrategy := b[n + 1..])
    else s
  }

  lemma CutAtBar(s: string)
    ensures Barless(s) <==> PartEnd(s, '|') == |s|
    ensures !Barless(s) ==> s == s[..PartEnd(s, '|')] + "|" + s[PartEnd(s, '|') + 1..]
  {
    var n := PartEnd(s, '|');
    if n < |s| {
      assert s[n] in s;
      CutHere(s, n, []);
    }
  }

  lemma Regroup(a: string, b: string, c: string)
    ensures (a + "|" + b) + "|" + c == a + "|" + (b + "|" + c)
  {
  }

  lemma MovedSplits(s: Settings)
    requires !(Barless(s.ocrLanguage) && Barless(s.pdfStrategy))
    ensures
      var s' := Moved(s);
      && SameNumbers(s, s') && s'.ocrLanguage != s.ocrLanguage
      && s.ocrLanguage + "|" + s.pdfStrategy == s'.ocrLanguage + "|" + s'.pdfStrategy
  {
    var a, b := s.ocrLanguage, s.pdfStrategy;
    var m, n := PartEnd(a, '|'), PartEnd(b, '|');
    if m < |a| {
      CutAtBar(a);
      Regroup(a[..m], a[m + 1..], b);
    } else {
      CutAtBar(b);
      Regroup(a, b[..n], b[n + 1..]);
    }
  }

  /** As with these two languages and strategies. */
  lemma SettingsCanCollide(version: nat, j: JobParams, s: Settings)
    ensures
      var one := s.(ocrLanguage := "deu|eng", pdfStrategy := "auto");
      var two := s.(ocrLanguage := "deu", pdfStrategy := "eng|auto");
      one != two && Fingerprint(version, j, one) == Fingerprint(version, j, two)
  {
    var one := s.(ocrLanguage := "deu|eng", pdfStrategy := "auto");
    var two := s.(ocrLanguage := "deu", pdfStrategy := "eng|auto");
    assert |one.ocrLanguage| != |two.ocrLanguage|;
    assert one.ocrLanguage + "|" + one.pdfStrategy == two.ocrLanguage + "|" + two.pdfStrategy;
    SettingsShareExactly(version, j, one, two);
  }

  // ---- exactly which parameter sets a fingerprint identifies

  /** A model name with, behind some text, four fields that read as a strategy and three numbers. */
  ghost predicate HoldsParameters(model: string) {
    exists i: nat :: i > 0 && ParametersAt(Split(model, '|'), i)
  }

  lemma StrategyIsNoNumber(t: string)
    requires IsStrategy(t)
    ensures !IsNumber(t)
  {
    var st :| t == StrategyText(st);
    assert t[0] > '9';
    assert t[0] in t;
  }

  ghost predicate Identified(version: nat, j: JobParams, s: Settings) {
    forall version': nat, j', s' ::
      Fingerprint(version, j, s) == Fingerprint(version', j', s') ==> version == version' && j == j' && s == s'
  }

  /** If the other set's own fields do not stand where ours do, they stand in our model name. */
  lemma OtherPlace(version: nat, j: JobParams, s: Settings, version': nat, j': JobParams, s': Settings)
    requires Fields(version, j, s) == Fields(version', j', s') && Barless(s.ocrLanguage) && Barless(s.pdfStrategy)
    requires |Split(j.model, '|')| != |Split(j'.model, '|')|
    ensures HoldsParameters(j.model)
  {
    var fields, model := Fields(version, j, s), Split(j.model, '|');
    var m, m' := |model|, |Split(j'.model, '|')|;
    FieldsAt(version, j, s);
    FieldsAt(version', j', s');
    BarlessSplit(s.ocrLanguage);
    BarlessSplit(s.pdfStrategy);
    StrategyIsNoNumber(fields[m]);
    assert m' + 4 <= m;
    assert forall i | 0 <= i < m :: fields[i] == model[i];
    assert ParametersAt(model, m');
  }

  lemma IdentifiedIf(version: nat, j: JobParams, s: Settings, version': nat, j': JobParams, s': Settings)
    requires Fields(version, j, s) == Fields(version', j', s') && Barless(s.ocrLanguage) && Barless(s.pdfStrategy)
    requires !HoldsParameters(j.model)
    ensures version == version' && j == j' && s == s'
  {
    if |Split(j.model, '|')| != |Split(j'.model, '|')| { OtherPlace(version, j, s, version', j', s'); }
    SamePlaceSameRest(version, j, s, version', j', s');
    SplitAround(s.ocrLanguage, '|', s.pdfStrategy);
    SplitAround(s'.ocrLanguage, '|', s'.pdfStrategy);
    SplitInjective(s.ocrLanguage + "|" + s.pdfStrategy, s'.ocrLanguage + "|" + s'.pdfStrategy, '|');
    OneWayToSplit(s, s');
  }

  /** The job read from a model name's parameters, its settings holding our own fields. */
  function OtherJob(j: JobParams, i: nat, chunking: Chunking): JobParams
    requires 0 < i <= |Split(j.model, '|')|
  {
    JobParams(Join(Split(j.model, '|')[..i], "|"), chunking, j.expand)
  }

  function OtherLanguage(version: nat, j: JobParams, s: Settings, i: nat): seq<string>
    requires i + 4 <= |Split(j.model, '|')|
  {
    Split(j.model, '|')[i + 4..] + Own(version, j) + [s.ocrLanguage]
  }

  lemma OtherSplits(version: nat, j: JobParams, s: Settings, i: nat, chunking: Chunking)
    requires 0 < i && i + 4 <= |Split(j.model, '|')| && Barless(s.ocrLanguage)
    ensures Split(OtherJob(j, i, chunking).model, '|') == Split(j.model, '|')[..i]
    ensures Split(Join(OtherLanguage(version, j, s, i), "|"), '|') == OtherLanguage(version, j, s, i)
  {
    var fields, language := Split(j.model, '|'), OtherLanguage(version, j, s, i);
    SplitParts(j.model, '|');
    OwnAreBarless(version, j, s);
    assert forall p | p in fields[..i] :: p in fields;
    assert forall p | p in fields[i + 4..] :: p in fields;
    assert forall p | p in language :: p in fields[i + 4..] || p in Own(version, j) + Last(j, s) || p == s.ocrLanguage;
    SplitOfBarless(fields[..i]);
    SplitOfBarless(language);
  }

  lemma OtherFields<T>(model: seq<T>, i: nat, own: seq<T>, other: seq<T>, language: T, pdf: seq<T>, last: seq<T>)
    requires i + 4 <= |model| && other == model[i..i + 4]
    ensures
      model + own + ([language] + pdf) + last == model[..i] + other + ((model[i + 4..] + own + [language]) + pdf) + last
  {
    assert model == model[..i] + other + model[i + 4..];
  }

  lemma OtherReadingAt(version: nat, j: JobParams, s: Settings, i: nat, version': nat, chunking: Chunking)
    requires 0 < i && i + 4 <= |Split(j.model, '|')| && Barless(s.ocrLanguage)
    requires Own(version', OtherJob(j, i, chunking)) == Split(j.model, '|')[i..i + 4]
    ensures
      var j', s' := OtherJob(j, i, chunking), s.(ocrLanguage := Join(OtherLanguage(version, j, s, i), "|"));
      j' != j && Fields(version, j, s) == Fields(version', j', s')
  {
    var model, j' := Split(j.model, '|'), OtherJob(j, i, chunking);
    OtherSplits(version, j, s, i, chunking);
    BarlessSplit(s.ocrLanguage);
    OtherFields(model, i, Own(version, j), Own(version', j'), s.ocrLanguage, Split(s.pdfStrategy, '|'), Last(j, s));
    assert |model[..i]| < |model|;
  }

  /** From a model name that holds parameters another job can be read. */
  lemma OtherReading(version: nat, j: JobParams, s: Settings)
    requires HoldsParameters(j.model) && Barless(s.ocrLanguage)
    ensures exists version': nat, j', s' :: j' != j && Fields(version, j, s) == Fields(version', j', s')
  {
    var fields := Split(j.model, '|');
    var i: nat :| i > 0 && ParametersAt(fields, i);
    var st :| fields[i] == StrategyText(st);
    var words: nat :| fields[i + 1] == Decimal(words);
    var overlap: nat :| fields[i + 2] == Decimal(overlap);
    var version': nat :| fields[i + 3] == Decimal(version');
    OtherReadingAt(version, j, s, i, version', Chunking(st, words, overlap));
  }

  /**
   A fingerprint identifies its version, job and settings, whatever the others are, exactly if the
   two texts of the settings hold no `|` and the model name holds no parameters.
   */
  lemma IdentifiedExactly(version: nat, j: JobParams, s: Settings)
    ensures
      Identified(version, j, s) <==> Barless(s.ocrLanguage) && Barless(s.pdfStrategy) && !HoldsParameters(j.model)
  {
    SettingsCollideExactly(version, j, s);
    if !(Barless(s.ocrLanguage) && Barless(s.pdfStrategy)) {
      var s' :| s' != s && Fingerprint(version, j, s) == Fingerprint(version, j, s');
    } else if HoldsParameters(j.model) {
      OtherReading(version, j, s);
      var version': nat, j', s' :| j' != j && Fields(version, j, s) == Fields(version', j', s');
      SameByFields(version, j, s, version', j', s');
    } else {
      forall version': nat, j', s' | Fingerprint(version, j, s) == Fingerprint(version', j', s')
        ensures version == version' && j == j' && s == s'
      {
        SameByFields(version, j, s, version', j', s');
        IdentifiedIf(version, j, s, version', j', s');
      }
    }
  }
}

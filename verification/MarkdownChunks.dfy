/** `chunk_markdown`, from the sections its heading pattern splits a text into. */
module MarkdownChunks {
  import opened Texts
  import opened Chunkers

  function FirstLine(section: string): string {
    section[..PartEnd(section, '\n')]
  }

  /** `section.partition("\n")[2]`. */
  function RestOf(section: string): string {
    if PartEnd(section, '\n') < |section| then section[PartEnd(section, '\n') + 1..] else ""
  }

  predicate Headed(section: string) {
    FirstLine(section) != [] && FirstLine(section)[0] == '#'
  }

  function HeadingWords(section: string): seq<string> {
    if Headed(section) then Words(FirstLine(section)) else []
  }

  function BodyWords(section: string): seq<string> {
    if Headed(section) then Words(RestOf(section)) else Words(section)
  }

  function Prefix(section: string): string {
    if Headed(section) then Strip(FirstLine(section)) + "\n\n" else ""
  }

  function MaxBody(section: string, words: nat): nat {
    Max(1, words - |HeadingWords(section)|)
  }

  function BodyStep(section: string, words: nat, overlap: nat): nat {
    Max(1, MaxBody(section, words) - overlap)
  }

  predicate Short(section: string, words: nat) {
    |Words(section)| <= words
  }

  /** The body windows of a section that is too long. */
  function SectionWindows(section: string, words: nat, overlap: nat): seq<seq<string>> {
    Windows(BodyWords(section), MaxBody(section, words), BodyStep(section, words, overlap), 0)
  }

  function SectionChunks(section: string, words: nat, overlap: nat): seq<string> {
    if Short(section, words) then [section] else WindowTexts(SectionWindows(section, words, overlap), Prefix(section))
  }

  function AllChunks(sections: seq<string>, words: nat, overlap: nat): seq<string> {
    if sections == [] then []
    else AllChunks(sections[..|sections| - 1], words, overlap) + SectionChunks(sections[|sections| - 1], words, overlap)
  }

  /** A text no section of which yields a chunk is windowed as a whole. */
  function MarkdownChunks(text: string, sections: seq<string>, words: nat, overlap: nat): seq<string> {
    var chunks := AllChunks(sections, words, overlap);
    if chunks == [] then WindowTexts(Windows(Words(text), words, Step(words, overlap), 0), "") else chunks
  }

  /** The windows of one long section, its heading repeated in each. */
  method ChunkSection(section: string, words: nat, overlap: nat) returns (chunks: seq<string>)
    requires words >= 1 && !Short(section, words)
    ensures chunks == SectionChunks(section, words, overlap)
  {
    var maxBody, step := MaxBody(section, words), BodyStep(section, words, overlap);
    chunks := WindowLoop(BodyWords(section), maxBody, step, Prefix(section));
  }

  /** `chunk_markdown`. */
  method ChunkMarkdown(text: string, sections: seq<string>, words: nat, overlap: nat) returns (chunks: seq<string>)
    requires words >= 1
    ensures chunks == MarkdownChunks(text, sections, words, overlap)
  {
    chunks := [];
    for i := 0 to |sections|
      invariant chunks == AllChunks(sections[..i], words, overlap)
    {
      assert sections[..i + 1][..i] == sections[..i];
      if |Words(sections[i])| <= words {
        chunks := chunks + [sections[i]];
      } else {
        var windows := ChunkSection(sections[i], words, overlap);
        chunks := chunks + windows;
      }
    }
    assert sections[..|sections|] == sections;
    if chunks == [] {
      chunks := WindowLoop(Words(text), words, Max(1, words - overlap), "");
    }
  }

  /** A line that begins with `#` does not strip to nothing. */
  lemma HeadingNotBlank(line: string)
    requires line != [] && line[0] == '#'
    ensures Strip(line) != ""
    decreases |line|
  {
    if Space(line[|line| - 1]) { HeadingNotBlank(line[..|line| - 1]); }
  }

  lemma CutAtNewline(section: string)
    ensures if PartEnd(section, '\n') < |section| then section == FirstLine(section) + "\n" + RestOf(section)
            else section == FirstLine(section) && RestOf(section) == ""
  {
    var n := PartEnd(section, '\n');
    if n < |section| { CutHere(section, n, []); }
  }

  lemma NoWords()
    ensures Words("") == []
  {
  }

  /** A newline splits no word. */
  lemma FirstLineWords(section: string)
    ensures Words(section) == Words(FirstLine(section)) + Words(RestOf(section))
  {
    CutAtNewline(section);
    NoWords();
    if PartEnd(section, '\n') < |section| { WordsAround(FirstLine(section), "\n", RestOf(section)); }
  }

  /** The words of a section are its heading's and its body's. */
  lemma SectionWords(section: string)
    ensures Words(section) == HeadingWords(section) + BodyWords(section)
  {
    if Headed(section) { FirstLineWords(section); }
  }

  /** The body words of a windowed section are all there, in order, and each window keeps the budget. */
  lemma BodyCovered(section: string, words: nat, overlap: nat)
    requires words >= 1
    ensures Firsts(SectionWindows(section, words, overlap), BodyStep(section, words, overlap)) == BodyWords(section)
  {
    WindowsLoseNothing(BodyWords(section), MaxBody(section, words), BodyStep(section, words, overlap), 0);
  }

  lemma PrefixWords(section: string, body: string)
    ensures Words(Prefix(section) + body) == HeadingWords(section) + Words(body)
  {
    if Headed(section) {
      WordsAround(Strip(FirstLine(section)), "\n\n", body);
      StripKeepsWords(FirstLine(section));
    } else {
      assert "" + body == body;
    }
  }

  /** Every chunk holds its section's heading words first, then the window's. */
  lemma ChunkWords(section: string, words: nat, overlap: nat, i: nat)
    requires words >= 1 && !Short(section, words) && i < |SectionWindows(section, words, overlap)|
    ensures i < |SectionChunks(section, words, overlap)|
    ensures Words(SectionChunks(section, words, overlap)[i]) ==
              HeadingWords(section) + SectionWindows(section, words, overlap)[i]
  {
    var windows := SectionWindows(section, words, overlap);
    WindowTextAt(windows, Prefix(section), i);
    WindowsOf(BodyWords(section), MaxBody(section, words), BodyStep(section, words, overlap), 0);
    assert windows[i] in windows;
    WordsOfJoin(windows[i]);
    PrefixWords(section, Join(windows[i], " "));
  }

  /** No chunk exceeds the budget, or its heading and one word when the heading alone uses it up. */
  lemma MarkdownBudget(section: string, words: nat, overlap: nat, i: nat)
    requires words >= 1 && i < |SectionChunks(section, words, overlap)|
    ensures |Words(SectionChunks(section, words, overlap)[i])| <= Max(words, |HeadingWords(section)| + 1)
  {
    if !Short(section, words) {
      var windows := SectionWindows(section, words, overlap);
      WindowTextsLength(windows, Prefix(section));
      ChunkWords(section, words, overlap, i);
      WindowsFit(BodyWords(section), MaxBody(section, words), BodyStep(section, words, overlap), 0);
      assert windows[i] in windows;
    }
  }

  /**
   A section yields no chunk exactly if it is one heading line longer than the budget: a heading is
   carried by the windows of its body, and there are none.
   */
  lemma SectionLostExactly(section: string, words: nat, overlap: nat)
    requires words >= 1
    ensures SectionChunks(section, words, overlap) == [] <==>
              Headed(section) && Words(RestOf(section)) == [] && |Words(FirstLine(section))| > words
  {
    SectionWords(section);
    WindowTextsLength(SectionWindows(section, words, overlap), Prefix(section));
  }

  /** The text of window `i`, after the prefix. */
  predicate IsText(chunk: string, prefix: string, ws: seq<string>, size: nat, step: nat, i: nat) {
    i * step < |ws| && chunk == prefix + Join(Slice(ws, i * step, size), " ")
  }

  /**
   The chunks of a long section, exactly: the body is what follows the heading line, if the section
   begins with `#`; a window has room for what the heading leaves of the budget, one word at least, and
   the heading stands in front of it.
   */
  lemma SectionChunksExactly(section: string, words: nat, overlap: nat)
    requires words >= 1 && |Words(section)| > words
    ensures
      var headed := section != [] && section[0] == '#';
      var heading := if headed then |Words(FirstLine(section))| else 0;
      var body := if headed then Words(RestOf(section)) else Words(section);
      var room := if words > heading then words - heading else 1;
      var step := if room > overlap then room - overlap else 1;
      var prefix := if headed then Strip(FirstLine(section)) + "\n\n" else "";
      var chunks := SectionChunks(section, words, overlap);
      && (forall i | 0 <= i < |chunks| :: IsText(chunks[i], prefix, body, room, step, i))
      && Reach(body, step, |chunks|)
  {
    SectionParts(section, words, overlap);
    TextsAreWindows(BodyWords(section), MaxBody(section, words), BodyStep(section, words, overlap), Prefix(section));
  }

  lemma SectionParts(section: string, words: nat, overlap: nat)
    ensures
      var headed := section != [] && section[0] == '#';
      var heading := if headed then |Words(FirstLine(section))| else 0;
      var room := if words > heading then words - heading else 1;
      && BodyWords(section) == (if headed then Words(RestOf(section)) else Words(section))
      && MaxBody(section, words) == room
      && BodyStep(section, words, overlap) == (if room > overlap then room - overlap else 1)
      && Prefix(section) == if headed then Strip(FirstLine(section)) + "\n\n" else ""
  {
  }

  /** A section within the budget is a chunk as it is. */
  lemma ShortSectionStays(section: string, words: nat, overlap: nat)
    requires |Words(section)| <= words
    ensures SectionChunks(section, words, overlap) == [section]
  {
  }

  /** One heading line over the budget. */
  predicate Lost(section: string, words: nat) {
    && section != [] && section[0] == '#'
    && Words(RestOf(section)) == [] && |Words(FirstLine(section))| > words
  }

  lemma LostSection(section: string, words: nat, overlap: nat)
    requires words >= 1
    ensures SectionChunks(section, words, overlap) == [] <==> Lost(section, words)
  {
    SectionLostExactly(section, words, overlap);
  }

  lemma LastSection(sections: seq<string>, words: nat, overlap: nat)
    requires words >= 1 && sections != []
    ensures
      var n := |sections| - 1;
      AllChunks(sections, words, overlap) == [] <==>
        AllChunks(sections[..n], words, overlap) == [] && Lost(sections[n], words)
  {
    LostSection(sections[|sections| - 1], words, overlap);
  }

  lemma {:induction false} AllLost(sections: seq<string>, words: nat, overlap: nat, i: nat)
    requires words >= 1 && i < |sections| && AllChunks(sections, words, overlap) == []
    ensures Lost(sections[i], words)
  {
    LastSection(sections, words, overlap);
    if i < |sections| - 1 { AllLost(sections[..|sections| - 1], words, overlap, i); }
  }

  lemma {:induction false} OneKept(sections: seq<string>, words: nat, overlap: nat) returns (i: nat)
    requires words >= 1 && AllChunks(sections, words, overlap) != []
    ensures i < |sections| && !Lost(sections[i], words)
  {
    i := |sections| - 1;
    LastSection(sections, words, overlap);
    if Lost(sections[i], words) { i := OneKept(sections[..i], words, overlap); }
  }

  /**
   When every section is one heading line over the budget, the whole text is windowed, heading words and
   all; otherwise there is a chunk, and the chunks are those of the sections in order.
   */
  lemma FallBackExactly(text: string, sections: seq<string>, words: nat, overlap: nat)
    requires words >= 1
    ensures
      var chunks := MarkdownChunks(text, sections, words, overlap);
      if forall s | s in sections :: Lost(s, words) then
        var step := if words > overlap then words - overlap else 1;
        && (forall i | 0 <= i < |chunks| :: IsText(chunks[i], "", Words(text), words, step, i))
        && Reach(Words(text), step, |chunks|)
      else chunks != [] && chunks == AllChunks(sections, words, overlap)
  {
    if AllChunks(sections, words, overlap) == [] {
      forall s | s in sections ensures Lost(s, words) {
        var i :| 0 <= i < |sections| && sections[i] == s;
        AllLost(sections, words, overlap, i);
      }
      TextsAreWindows(Words(text), words, Step(words, overlap), "");
    } else {
      var i := OneKept(sections, words, overlap);
      assert sections[i] in sections;
    }
  }

  lemma TextsAreWindows(ws: seq<string>, size: nat, step: nat, prefix: string)
    requires step > 0
    ensures
      var texts := WindowTexts(Windows(ws, size, step, 0), prefix);
      (forall i | 0 <= i < |texts| :: IsText(texts[i], prefix, ws, size, step, i)) && Reach(ws, step, |texts|)
  {
    WindowTextsLength(Windows(ws, size, step, 0), prefix);
    WindowsExactly(ws, size, step);
    forall i | 0 <= i < |Windows(ws, size, step, 0)|
      ensures IsText(WindowTexts(Windows(ws, size, step, 0), prefix)[i], prefix, ws, size, step, i)
    {
      WindowTextAt(Windows(ws, size, step, 0), prefix, i);
    }
  }

  lemma TagLine()
    ensures |Words("#a b")| == 2 && FirstLine("#a b") == "#a b" && Words(RestOf("#a b")) == []
  {
    assert "#a b" == "#a" + " " + "b";
    WordsAround("#a", " ", "b");
    WordsOfWord("#a");
    WordsOfWord("b");
    assert '\n' !in "#a b";
    PartEndIs("#a b", '\n', "");
    NoWords();
  }

  /** So one long line that begins with `#` is lost beside any section that yields a chunk. */
  lemma LongTagLineIsLost(section: string, overlap: nat)
    requires Short(section, 1)
    ensures AllChunks(["#a b", section], 1, overlap) == [section]
  {
    TagLine();
    SectionLostExactly("#a b", 1, overlap);
    assert ["#a b", section][..1] == ["#a b"] && ["#a b"][..0] == [];
    assert AllChunks(["#a b"], 1, overlap) == [] + SectionChunks("#a b", 1, overlap);
  }
}

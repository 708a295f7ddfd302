/** `chunk_slides`, from the stripped nonempty slides. */
module Slides {
  import opened Stores
  import opened Texts

  datatype Merging = Merging(merged: seq<seq<string>>, current: seq<string>)

  /** One more slide starts a new group or joins the current one. */
  function Next(m: Merging, slide: string, closes: bool): Merging {
    if closes then Merging(m.merged + [m.current], [slide]) else m.(current := m.current + [slide])
  }

  predicate Closes(current: seq<string>, slide: string, words: nat) {
    current != [] && |AllWords(current)| + |Words(slide)| > words
  }

  /** Groups of consecutive slides; `closes` says when a slide starts a new one. */
  function MergeBy(slides: seq<string>, closes: (seq<string>, string) -> bool): Merging {
    if slides == [] then Merging([], [])
    else
      var m, last := MergeBy(slides[..|slides| - 1], closes), slides[|slides| - 1];
      Next(m, last, closes(m.current, last))
  }

  /** Consecutive slides are merged while the word budget allows. */
  function Merge(slides: seq<string>, words: nat): Merging {
    MergeBy(slides, (current, slide) => Closes(current, slide, words))
  }

  function Groups(slides: seq<string>, words: nat): seq<seq<string>> {
    var m := Merge(slides, words);
    if m.current == [] then m.merged else m.merged + [m.current]
  }

  /** Every chunk carries the deck title, if there is a nonempty one. */
  function SlideText(group: seq<string>, title: Option<string>): string {
    var text := Join(group, "\n\n");
    if title.Some? && title.value != "" then title.value + "\n\n" + text else text
  }

  function SlideTexts(groups: seq<seq<string>>, title: Option<string>): seq<string> {
    seq(|groups|, i requires 0 <= i < |groups| => SlideText(groups[i], title))
  }

  lemma OneMoreText(groups: seq<seq<string>>, g: seq<string>, title: Option<string>)
    ensures SlideTexts(groups + [g], title) == SlideTexts(groups, title) + [SlideText(g, title)]
  {
  }

  lemma Untitled(groups: seq<seq<string>>, title: Option<string>)
    ensures |SlideTexts(groups, None)| == |SlideTexts(groups, title)| == |groups|
    ensures forall i | 0 <= i < |groups| ::
              SlideTexts(groups, title)[i] ==
                if title.Some? && title.value != "" then title.value + "\n\n" + SlideTexts(groups, None)[i]
                else SlideTexts(groups, None)[i]
  {
  }

  /** `chunk_slides`. */
  method ChunkSlides(slides: seq<string>, words: nat, title: Option<string>) returns (chunks: seq<string>)
    ensures chunks == SlideTexts(Groups(slides, words), title)
  {
    var merged := MergeSlides(slides, words);
    Untitled(Groups(slides, words), title);
    if title.Some? && title.value != "" {
      chunks := seq(|merged|, i requires 0 <= i < |merged| => title.value + "\n\n" + merged[i]);
    } else {
      chunks := merged;
    }
  }

  lemma MergeNext(slides: seq<string>, words: nat, i: nat)
    requires i < |slides|
    ensures
      var m := Merge(slides[..i], words);
      Merge(slides[..i + 1], words) == Next(m, slides[i], Closes(m.current, slides[i], words))
  {
    assert slides[..i + 1][..i] == slides[..i];
  }

  method MergeSlides(slides: seq<string>, words: nat) returns (merged: seq<string>)
    ensures merged == SlideTexts(Groups(slides, words), None)
  {
    merged := [];
    var current: seq<string> := [];
    var currentWords := 0;
    for i := 0 to |slides|
      invariant current == Merge(slides[..i], words).current && currentWords == |AllWords(current)|
      invariant merged == SlideTexts(Merge(slides[..i], words).merged, None)
    {
      MergeNext(slides, words, i);
      OneMoreSlide(current, slides[i]);
      OneMoreText(Merge(slides[..i], words).merged, current, None);
      var slideWords := |Words(slides[i])|;
      if current != [] && currentWords + slideWords > words {
        merged := merged + [Join(current, "\n\n")];
        current, currentWords := [slides[i]], slideWords;
      } else {
        current, currentWords := current + [slides[i]], currentWords + slideWords;
      }
    }
    assert slides[..|slides|] == slides;
    OneMoreText(Merge(slides, words).merged, current, None);
    if current != [] { merged := merged + [Join(current, "\n\n")]; }
  }

  lemma OneMoreSlide(current: seq<string>, slide: string)
    ensures AllWords(current + [slide]) == AllWords(current) + Words(slide)
    ensures AllWords([slide]) == Words(slide)
  {
    assert (current + [slide])[..|current|] == current && [slide][..0] == [];
  }

  /** A group of slides within the budget, or a single slide. */
  ghost predicate Fits(group: seq<string>, words: nat) {
    |group| > 1 ==> |AllWords(group)| <= words
  }

  /** The groups hold these slides, in this order. */
  ghost predicate Covers(m: Merging, slides: seq<string>) {
    Flat(m.merged) + m.current == slides
  }

  /** One more slide, whichever group it goes to, follows the slides so far. */
  lemma Follows(m: Merging, slides: seq<string>, last: string, closes: bool)
    requires Covers(m, slides)
    ensures Covers(Next(m, last, closes), slides + [last])
  {
    FlatLast(m.merged, m.current);
  }

  lemma {:induction false} MergeKeeps(slides: seq<string>, closes: (seq<string>, string) -> bool)
    ensures Covers(MergeBy(slides, closes), slides)
  {
    if slides != [] {
      var front, last := slides[..|slides| - 1], slides[|slides| - 1];
      var m := MergeBy(front, closes);
      MergeKeeps(front, closes);
      Follows(m, front, last, closes(m.current, last));
      assert front + [last] == slides;
    }
  }

  lemma {:induction false} MergeFits(slides: seq<string>, words: nat)
    ensures
      var m := Merge(slides, words);
      Fits(m.current, words) && forall g | g in m.merged :: g != [] && Fits(g, words)
  {
    if slides != [] {
      var n := |slides| - 1;
      MergeFits(slides[..n], words);
      OneMoreSlide(Merge(slides[..n], words).current, slides[n]);
    }
  }

  /** No slide is lost or moved, and only a slide that is too long by itself exceeds the budget. */
  lemma SlidesLoseNothing(slides: seq<string>, words: nat)
    ensures Flat(Groups(slides, words)) == slides
    ensures forall g | g in Groups(slides, words) :: g != [] && Fits(g, words)
  {
    MergeKeeps(slides, (current, slide) => Closes(current, slide, words));
    MergeFits(slides, words);
    var m := Merge(slides, words);
    FlatLast(m.merged, m.current);
  }

  /** The slide does not fit the group any more. */
  predicate TooMuch(group: seq<string>, slide: string, words: nat) {
    |AllWords(group)| + |Words(slide)| > words
  }

  /** Every group but the one in hand was closed by a slide too much. */
  ghost predicate Tight(m: Merging, words: nat) {
    && (m.merged != [] ==> m.current != [] && TooMuch(m.merged[|m.merged| - 1], m.current[0], words))
    && forall i | 0 < i < |m.merged| :: Closed(m.merged, i, words)
  }

  /** The group before the `i`-th was closed by a slide too much. */
  predicate Closed(groups: seq<seq<string>>, i: nat, words: nat)
    requires 0 < i < |groups|
  {
    groups[i] != [] && TooMuch(groups[i - 1], groups[i][0], words)
  }

  lemma {:induction false} MergeIsTight(slides: seq<string>, words: nat)
    ensures Tight(Merge(slides, words), words)
  {
    if slides != [] {
      MergeIsTight(slides[..|slides| - 1], words);
      NextIsTight(Merge(slides[..|slides| - 1], words), slides[|slides| - 1], words);
    }
  }

  lemma NextIsTight(m: Merging, slide: string, words: nat)
    requires Tight(m, words)
    ensures Tight(Next(m, slide, Closes(m.current, slide, words)), words)
  {
    var next := Next(m, slide, Closes(m.current, slide, words));
    forall i | 0 < i < |next.merged| ensures Closed(next.merged, i, words) {
      if i < |m.merged| { assert Closed(m.merged, i, words); }
    }
  }

  lemma TightGroups(m: Merging, groups: seq<seq<string>>, words: nat, i: nat)
    requires Tight(m, words) && groups == (if m.current == [] then m.merged else m.merged + [m.current])
    requires i + 1 < |groups|
    ensures groups[i + 1] != [] && TooMuch(groups[i], groups[i + 1][0], words)
  {
    if i + 1 < |m.merged| { assert Closed(m.merged, i + 1, words); }
  }

  /** Merging is greedy: a group is closed only because the slide behind it would not have fitted. */
  lemma MergingIsMaximal(slides: seq<string>, words: nat, i: nat)
    requires i + 1 < |Groups(slides, words)|
    ensures
      var a, b := Groups(slides, words)[i], Groups(slides, words)[i + 1];
      b != [] && |AllWords(a)| + |Words(b[0])| > words
  {
    MergeIsTight(slides, words);
    TightGroups(Merge(slides, words), Groups(slides, words), words, i);
  }

  /** A chunk is the title, if there is one, and the slides, with a blank line between any two. */
  lemma BlankLinesBetween(group: seq<string>, last: string, title: string)
    ensures SlideText([last], None) == last
    ensures group != [] ==> SlideText(group + [last], None) == SlideText(group, None) + "\n\n" + last
    ensures SlideText(group, Some(title)) == (if title == "" then "" else title + "\n\n") + SlideText(group, None)
  {
    assert (group + [last])[..|group|] == group;
  }

  /** A chunk's words are its title's and its slides'. */
  lemma SlideWords(group: seq<string>, title: Option<string>)
    ensures Words(SlideText(group, title)) == (if title.Some? then Words(title.value) else []) + AllWords(group)
  {
    JoinKeepsWords(group, "\n\n");
    if title.Some? && title.value != "" { WordsAround(title.value, "\n\n", Join(group, "\n\n")); }
  }
}

/**
 The chunkers, from the pieces their regular expressions split a text into. Each is a loop proved
 against a specification that says which words every chunk holds; what is proved of the
 specification is that no word is lost and that budgets are kept.
 */
module Chunkers {
  import opened Texts

  function Min(a: int, b: int): int {
    if a <= b then a else b
  }

  function Max(a: int, b: int): int {
    if a >= b then a else b
  }

  // ---- word windows

  /** The words of the windows from `start` on: `size` words each, `step` apart. */
  function Windows(ws: seq<string>, size: nat, step: nat, start: nat): seq<seq<string>>
    requires step > 0
    decreases |ws| + step - start
  {
    if start >= |ws| then []
    else [ws[start..Min(start + size, |ws|)]] + Windows(ws, size, step, start + step)
  }

  function Firsts(windows: seq<seq<string>>, step: nat): seq<string> {
    if windows == [] then [] else windows[0][..Min(step, |windows[0]|)] + Firsts(windows[1..], step)
  }

  /** The first `step` words of every window, one after the other, are the words themselves. */
  lemma {:induction false} WindowsLoseNothing(ws: seq<string>, size: nat, step: nat, start: nat)
    requires 0 < step <= size && start <= |ws|
    ensures Firsts(Windows(ws, size, step, start), step) == ws[start..]
    decreases |ws| - start
  {
    if start < |ws| {
      var next := Min(start + step, |ws|);
      WindowsLoseNothing(ws, size, step, next);
      assert start + step > |ws| ==> Windows(ws, size, step, start + step) == Windows(ws, size, step, next);
      var first := ws[start..Min(start + size, |ws|)];
      assert first[..Min(step, |first|)] == ws[start..next];
      assert ws[start..next] + ws[next..] == ws[start..];
    }
  }

  lemma {:induction false} WindowsFit(ws: seq<string>, size: nat, step: nat, start: nat)
    requires step > 0 && size > 0
    ensures forall w | w in Windows(ws, size, step, start) :: 0 < |w| <= size
    decreases |ws| + step - start
  {
    if start < |ws| { WindowsFit(ws, size, step, start + step); }
  }

  lemma {:induction false} WindowsOf(ws: seq<string>, size: nat, step: nat, start: nat)
    requires step > 0
    ensures forall w, x | w in Windows(ws, size, step, start) && x in w :: x in ws
    decreases |ws| + step - start
  {
    if start < |ws| { WindowsOf(ws, size, step, start + step); }
  }

  /** The words from `from` on, `size` of them where there are as many. */
  function Slice(ws: seq<string>, from: nat, size: nat): seq<string>
    requires from <= |ws|
  {
    ws[from..if from + size <= |ws| then from + size else |ws|]
  }

  /** Window `i` starts `i` steps on and is `size` words long where there are as many. */
  predicate IsWindow(w: seq<string>, ws: seq<string>, size: nat, step: nat, i: nat) {
    i * step < |ws| && w == Slice(ws, i * step, size)
  }

  /** `n` windows are just as many as reach the last word. */
  predicate Reach(ws: seq<string>, step: nat, n: nat) {
    |ws| <= n * step && (n > 0 ==> (n - 1) * step < |ws|)
  }

  lemma {:induction false} SliceAt(ws: seq<string>, size: nat, step: nat, start: nat, i: nat, from: nat)
    requires step > 0 && i < |Windows(ws, size, step, start)| && from == start + i * step
    ensures from < |ws| && Windows(ws, size, step, start)[i] == Slice(ws, from, size)
    decreases i
  {
    if i > 0 {
      assert start + step + (i - 1) * step == from;
      SliceAt(ws, size, step, start + step, i - 1, from);
    }
  }

  lemma {:induction false} SliceCount(ws: seq<string>, size: nat, step: nat, start: nat)
    requires step > 0 && start <= |ws|
    ensures
      var n := |Windows(ws, size, step, start)|;
      |ws| <= start + n * step && (n > 0 ==> start + (n - 1) * step < |ws|) && (n == 0 <==> start == |ws|)
    decreases |ws| - start
  {
    if start < |ws| {
      var rest := |Windows(ws, size, step, start + step)|;
      if start + step <= |ws| { SliceCount(ws, size, step, start + step); }
      assert (1 + rest) * step == step + rest * step;
      if rest > 0 { assert rest * step == step + (rest - 1) * step; }
    }
  }

  /** The windows, exactly: where each one is, and that they reach just every word. */
  lemma WindowsExactly(ws: seq<string>, size: nat, step: nat)
    requires step > 0
    ensures forall i | 0 <= i < |Windows(ws, size, step, 0)| ::
              IsWindow(Windows(ws, size, step, 0)[i], ws, size, step, i)
    ensures Reach(ws, step, |Windows(ws, size, step, 0)|)
  {
    SliceCount(ws, size, step, 0);
    forall i | 0 <= i < |Windows(ws, size, step, 0)|
      ensures IsWindow(Windows(ws, size, step, 0)[i], ws, size, step, i)
    {
      SliceAt(ws, size, step, 0, i, i * step);
    }
  }

  lemma SlicesOverlap(ws: seq<string>, from: nat, size: nat, step: nat)
    requires from + step < |ws| && step <= size
    ensures step <= |Slice(ws, from, size)| && Slice(ws, from, size)[step..] <= Slice(ws, from + step, size)
  {
    var n := |Slice(ws, from, size)| - step;
    assert Slice(ws, from, size)[step..] == ws[from + step..from + step + n];
    assert Slice(ws, from + step, size)[..n] == ws[from + step..from + step + n];
  }

  /** Two windows in a row share all but the first `step` words of the first. */
  lemma WindowsOverlap(ws: seq<string>, size: nat, step: nat, i: nat)
    requires 0 < step <= size && i + 1 < |Windows(ws, size, step, 0)|
    ensures
      var a, b := Windows(ws, size, step, 0)[i], Windows(ws, size, step, 0)[i + 1];
      step <= |a| && a[step..] <= b
  {
    var from := i * step;
    assert (i + 1) * step == from + step;
    SliceAt(ws, size, step, 0, i, from);
    SliceAt(ws, size, step, 0, i + 1, from + step);
    SlicesOverlap(ws, from, size, step);
  }

  /** The window texts: each window's words joined by a blank, after a prefix. */
  function WindowTexts(windows: seq<seq<string>>, prefix: string): seq<string> {
    if windows == [] then []
    else WindowTexts(windows[..|windows| - 1], prefix) + [prefix + Join(windows[|windows| - 1], " ")]
  }

  lemma {:induction false} WindowTextAt(windows: seq<seq<string>>, prefix: string, i: nat)
    requires i < |windows|
    ensures |WindowTexts(windows, prefix)| == |windows|
    ensures WindowTexts(windows, prefix)[i] == prefix + Join(windows[i], " ")
    decreases |windows|
  {
    var n := |windows| - 1;
    if i < n { WindowTextAt(windows[..n], prefix, i); }
    else if n > 0 { WindowTextAt(windows[..n], prefix, 0); }
  }

  lemma {:induction false} WindowTextsLength(windows: seq<seq<string>>, prefix: string)
    ensures |WindowTexts(windows, prefix)| == |windows|
  {
    if windows != [] { WindowTextsLength(windows[..|windows| - 1], prefix); }
  }

  lemma {:induction false} WindowsTail(ws: seq<string>, size: nat, step: nat, start: nat, taken: seq<seq<string>>)
    requires step > 0 && start < |ws|
    ensures taken + Windows(ws, size, step, start) ==
              taken + [ws[start..Min(start + size, |ws|)]] + Windows(ws, size, step, start + step)
  {
  }

  /** The window loop shared by the chunkers. */
  method WindowLoop(ws: seq<string>, size: nat, step: nat, prefix: string) returns (chunks: seq<string>)
    requires step > 0 && size > 0
    ensures chunks == WindowTexts(Windows(ws, size, step, 0), prefix)
  {
    chunks := [];
    ghost var taken: seq<seq<string>> := [];
    var i := 0;
    while i < |ws|
      invariant 0 <= i
      invariant taken + Windows(ws, size, step, i) == Windows(ws, size, step, 0)
      invariant chunks == WindowTexts(taken, prefix)
    {
      var window := ws[i..Min(i + size, |ws|)];
      WindowsTail(ws, size, step, i, taken);
      if window != [] {
        chunks := chunks + [prefix + Join(window, " ")];
        assert (taken + [window])[..|taken|] == taken;
      }
      taken := taken + [window];
      i := i + step;
    }
    assert taken + [] == taken;
  }

  // ---- paragraphs

  /** A chunk is whole paragraphs, or a window of one that is too long. */
  datatype Piece = Packed(paragraphs: seq<string>) | Window(words: seq<string>)

  datatype Packing = Packing(done: seq<Piece>, current: seq<string>)

  function PieceText(p: Piece): string {
    match p
    case Packed(paragraphs) => Join(paragraphs, "\n\n")
    case Window(ws) => Join(ws, " ")
  }

  function Step(words: nat, overlap: nat): nat {
    Max(1, words - overlap)
  }

  function Flushed(p: Packing): Packing {
    if p.current == [] then p else Packing(p.done + [Packed(p.current)], [])
  }

  function WindowPieces(windows: seq<seq<string>>): seq<Piece> {
    if windows == [] then [] else WindowPieces(windows[..|windows| - 1]) + [Window(windows[|windows| - 1])]
  }

  /** Greedy packing: a paragraph joins the current chunk while the budget allows. */
  function Pack(paragraphs: seq<string>, words: nat, overlap: nat): Packing {
    if paragraphs == [] then Packing([], [])
    else
      var p, last := Pack(paragraphs[..|paragraphs| - 1], words, overlap), paragraphs[|paragraphs| - 1];
      var ws := Words(last);
      if |ws| > words then Packing(Flushed(p).done + WindowPieces(Windows(ws, words, Step(words, overlap), 0)), [])
      else if |AllWords(p.current)| + |ws| > words then Packing(Flushed(p).done, [last])
      else p.(current := p.current + [last])
  }

  function Pieces(paragraphs: seq<string>, words: nat, overlap: nat): seq<Piece> {
    Flushed(Pack(paragraphs, words, overlap)).done
  }

  function PieceTexts(pieces: seq<Piece>): seq<string> {
    if pieces == [] then [] else PieceTexts(pieces[..|pieces| - 1]) + [PieceText(pieces[|pieces| - 1])]
  }

  /** The words a chunk is the first to hold. */
  function FreshWords(p: Piece, step: nat): seq<string> {
    match p
    case Packed(paragraphs) => AllWords(paragraphs)
    case Window(ws) => ws[..Min(step, |ws|)]
  }

  function FreshParts(pieces: seq<Piece>, step: nat): seq<seq<string>> {
    seq(|pieces|, i requires 0 <= i < |pieces| => FreshWords(pieces[i], step))
  }

  function AllFresh(pieces: seq<Piece>, step: nat): seq<string> {
    Flat(FreshParts(pieces, step))
  }

  lemma FreshLast(a: seq<Piece>, p: Piece, step: nat)
    ensures AllFresh(a + [p], step) == AllFresh(a, step) + FreshWords(p, step)
  {
    assert FreshParts(a + [p], step) == FreshParts(a, step) + [FreshWords(p, step)];
    assert (FreshParts(a, step) + [FreshWords(p, step)])[..|a|] == FreshParts(a, step);
  }

  lemma FreshAdds(a: seq<Piece>, b: seq<Piece>, step: nat)
    ensures AllFresh(a + b, step) == AllFresh(a, step) + AllFresh(b, step)
  {
    assert FreshParts(a + b, step) == FreshParts(a, step) + FreshParts(b, step);
    FlatAdds(FreshParts(a, step), FreshParts(b, step));
  }

  lemma {:induction false} FirstsAdds(windows: seq<seq<string>>, w: seq<string>, step: nat)
    ensures Firsts(windows + [w], step) == Firsts(windows, step) + w[..Min(step, |w|)]
  {
    if windows == [] {
      assert Firsts([], step) == [] && ([] + [w])[1..] == [];
    } else {
      FirstsAdds(windows[1..], w, step);
      assert (windows + [w])[1..] == windows[1..] + [w];
    }
  }

  lemma {:induction false} WindowsFresh(windows: seq<seq<string>>, step: nat)
    ensures AllFresh(WindowPieces(windows), step) == Firsts(windows, step)
    ensures |WindowPieces(windows)| == |windows|
    ensures PieceTexts(WindowPieces(windows)) == WindowTexts(windows, "")
    ensures forall p | p in WindowPieces(windows) :: p.Window? && p.words in windows
  {
    if windows != [] {
      var n := |windows| - 1;
      WindowsFresh(windows[..n], step);
      FirstsAdds(windows[..n], windows[n], step);
      FreshLast(WindowPieces(windows[..n]), Window(windows[n]), step);
      assert windows[..n] + [windows[n]] == windows;
      assert "" + Join(windows[n], " ") == Join(windows[n], " ");
    }
  }

  lemma FlushFresh(p: Packing, step: nat)
    ensures AllFresh(Flushed(p).done, step) == AllFresh(p.done, step) + AllWords(p.current)
  {
    if p.current != [] {
      FreshLast(p.done, Packed(p.current), step);
    }
  }

  lemma WindowedFresh(done: seq<Piece>, ws: seq<string>, words: nat, overlap: nat)
    requires words >= 1
    ensures
      var step := Step(words, overlap);
      AllFresh(done + WindowPieces(Windows(ws, words, step, 0)), step) == AllFresh(done, step) + ws
  {
    var step := Step(words, overlap);
    FreshAdds(done, WindowPieces(Windows(ws, words, step, 0)), step);
    WindowsFresh(Windows(ws, words, step, 0), step);
    WindowsLoseNothing(ws, words, step, 0);
  }

  lemma OneMoreParagraph(current: seq<string>, paragraph: string)
    ensures AllWords(current + [paragraph]) == AllWords(current) + Words(paragraph)
    ensures AllWords([paragraph]) == Words(paragraph)
  {
    assert (current + [paragraph])[..|current|] == current;
    assert [paragraph][..0] == [];
  }

  lemma {:induction false} PackLosesNothing(paragraphs: seq<string>, words: nat, overlap: nat)
    requires words >= 1
    ensures
      var p := Pack(paragraphs, words, overlap);
      AllFresh(p.done, Step(words, overlap)) + AllWords(p.current) == AllWords(paragraphs)
  {
    if paragraphs != [] {
      var n := |paragraphs| - 1;
      PackLosesNothing(paragraphs[..n], words, overlap);
      var p := Pack(paragraphs[..n], words, overlap);
      FlushFresh(p, Step(words, overlap));
      WindowedFresh(Flushed(p).done, Words(paragraphs[n]), words, overlap);
      OneMoreParagraph(p.current, paragraphs[n]);
    }
  }

  /** The words each chunk is the first to hold are, in order, the words of the text. */
  lemma ParagraphsLoseNothing(paragraphs: seq<string>, words: nat, overlap: nat)
    requires words >= 1
    ensures AllFresh(Pieces(paragraphs, words, overlap), Step(words, overlap)) == AllWords(paragraphs)
  {
    PackLosesNothing(paragraphs, words, overlap);
    FlushFresh(Pack(paragraphs, words, overlap), Step(words, overlap));
  }

  ghost predicate Fits(p: Piece, words: nat) {
    match p
    case Packed(paragraphs) => paragraphs != [] && |AllWords(paragraphs)| <= words
    case Window(ws) => 0 < |ws| <= words && forall w | w in ws :: IsWord(w)
  }

  lemma {:induction false} PackFits(paragraphs: seq<string>, words: nat, overlap: nat)
    requires words >= 1
    ensures
      var p := Pack(paragraphs, words, overlap);
      |AllWords(p.current)| <= words && forall q | q in p.done :: Fits(q, words)
  {
    if paragraphs != [] {
      var n := |paragraphs| - 1;
      PackFits(paragraphs[..n], words, overlap);
      var p, ws := Pack(paragraphs[..n], words, overlap), Words(paragraphs[n]);
      if |ws| > words {
        var windows := Windows(ws, words, Step(words, overlap), 0);
        WindowsFit(ws, words, Step(words, overlap), 0);
        WindowsOf(ws, words, Step(words, overlap), 0);
        WindowsFresh(windows, 1);
      } else {
        OneMoreParagraph(p.current, paragraphs[n]);
      }
    }
  }

  lemma PieceWords(p: Piece)
    requires p.Window? ==> forall w | w in p.words :: IsWord(w)
    ensures Words(PieceText(p)) == match p case Packed(paragraphs) => AllWords(paragraphs) case Window(ws) => ws
  {
    match p
    case Packed(paragraphs) => JoinKeepsWords(paragraphs, "\n\n");
    case Window(ws) => WordsOfJoin(ws);
  }

  lemma PiecesFit(paragraphs: seq<string>, words: nat, overlap: nat, p: Piece)
    requires words >= 1 && p in Pieces(paragraphs, words, overlap)
    ensures Fits(p, words)
  {
    PackFits(paragraphs, words, overlap);
    var packing := Pack(paragraphs, words, overlap);
    if p !in packing.done { assert p == Packed(packing.current); }
  }

  /** No paragraph chunk exceeds the word budget. */
  lemma ParagraphBudget(paragraphs: seq<string>, words: nat, overlap: nat, p: Piece)
    requires words >= 1 && p in Pieces(paragraphs, words, overlap)
    ensures |Words(PieceText(p))| <= words
  {
    PiecesFit(paragraphs, words, overlap, p);
    FitsByWords(p, words);
  }

  lemma FitsByWords(p: Piece, words: nat)
    requires Fits(p, words)
    ensures |Words(PieceText(p))| <= words
  {
    PieceWords(p);
  }

  /** A chunk of whole paragraphs has a blank line between them and is otherwise their text. */
  lemma BlankLinesBetween(paragraphs: seq<string>, last: string)
    ensures PieceText(Packed(paragraphs + [last])) ==
              if paragraphs == [] then last else PieceText(Packed(paragraphs)) + "\n\n" + last
  {
    assert (paragraphs + [last])[..|paragraphs|] == paragraphs;
  }

  /** The next paragraph is one more than the chunk can hold. */
  predicate Full(paragraphs: seq<string>, next: string, words: nat) {
    |AllWords(paragraphs)| + |Words(next)| > words
  }

  /** Chunks of whole paragraphs are only closed for want of room. */
  ghost predicate Tight(pieces: seq<Piece>, words: nat) {
    forall i | 0 <= i < |pieces| - 1 && pieces[i].Packed? && pieces[i + 1].Packed? ::
      pieces[i + 1].paragraphs != [] && Full(pieces[i].paragraphs, pieces[i + 1].paragraphs[0], words)
  }

  /** The same, of a packing whose last chunk is still open. */
  ghost predicate TightSoFar(p: Packing, words: nat) {
    && Tight(p.done, words)
    && (p.done != [] && p.done[|p.done| - 1].Packed? && p.current != [] ==>
          Full(p.done[|p.done| - 1].paragraphs, p.current[0], words))
    && (p.done != [] && p.done[|p.done| - 1].Packed? ==> p.current != [])
  }

  lemma FlushIsTight(p: Packing, words: nat)
    requires TightSoFar(p, words)
    ensures Tight(Flushed(p).done, words)
  {
  }

  lemma {:induction false} WindowPiecesAre(windows: seq<seq<string>>)
    ensures |WindowPieces(windows)| == |windows|
    ensures forall i | 0 <= i < |windows| :: WindowPieces(windows)[i] == Window(windows[i])
  {
    if windows != [] { WindowPiecesAre(windows[..|windows| - 1]); }
  }

  lemma {:induction false} PackIsTight(paragraphs: seq<string>, words: nat, overlap: nat)
    requires words >= 1
    ensures TightSoFar(Pack(paragraphs, words, overlap), words)
  {
    if paragraphs != [] {
      var n := |paragraphs| - 1;
      PackIsTight(paragraphs[..n], words, overlap);
      var p, ws := Pack(paragraphs[..n], words, overlap), Words(paragraphs[n]);
      FlushIsTight(p, words);
      if |ws| > words {
        var windows := Windows(ws, words, Step(words, overlap), 0);
        WindowPiecesAre(windows);
        SliceCount(ws, words, Step(words, overlap), 0);
      }
    }
  }

  /** Packing is greedy: of two chunks of whole paragraphs in a row the first could not hold one more. */
  lemma PackingIsMaximal(paragraphs: seq<string>, words: nat, overlap: nat, i: nat)
    requires words >= 1 && i + 1 < |Pieces(paragraphs, words, overlap)|
    requires Pieces(paragraphs, words, overlap)[i].Packed? && Pieces(paragraphs, words, overlap)[i + 1].Packed?
    ensures
      var a := Pieces(paragraphs, words, overlap)[i].paragraphs;
      var b := Pieces(paragraphs, words, overlap)[i + 1].paragraphs;
      b != [] && |AllWords(a)| + |Words(b[0])| > words
  {
    PackIsTight(paragraphs, words, overlap);
    FlushIsTight(Pack(paragraphs, words, overlap), words);
  }

  /** The paragraphs of a piece, if they are whole. */
  function Wholes(p: Piece): seq<string> {
    if p.Packed? then p.paragraphs else []
  }

  function AllWholes(pieces: seq<Piece>): seq<string> {
    if pieces == [] then [] else AllWholes(pieces[..|pieces| - 1]) + Wholes(pieces[|pieces| - 1])
  }

  /** The paragraphs that fit a chunk. */
  function Fitting(paragraphs: seq<string>, words: nat): seq<string> {
    if paragraphs == [] then []
    else
      var n := |paragraphs| - 1;
      Fitting(paragraphs[..n], words) + (if |Words(paragraphs[n])| <= words then [paragraphs[n]] else [])
  }

  lemma WholesLast(pieces: seq<Piece>, p: Piece)
    ensures AllWholes(pieces + [p]) == AllWholes(pieces) + Wholes(p)
  {
    assert (pieces + [p])[..|pieces|] == pieces;
  }

  lemma {:induction false} WindowsAreNotWhole(pieces: seq<Piece>, windows: seq<seq<string>>)
    ensures AllWholes(pieces + WindowPieces(windows)) == AllWholes(pieces)
  {
    if windows == [] {
      assert pieces + WindowPieces(windows) == pieces;
    } else {
      var n := |windows| - 1;
      WindowsAreNotWhole(pieces, windows[..n]);
      WholesLast(pieces + WindowPieces(windows[..n]), Window(windows[n]));
      assert pieces + WindowPieces(windows) == pieces + WindowPieces(windows[..n]) + [Window(windows[n])];
    }
  }

  lemma {:induction false} PackKeepsWhole(paragraphs: seq<string>, words: nat, overlap: nat)
    ensures
      var p := Pack(paragraphs, words, overlap);
      AllWholes(p.done) + p.current == Fitting(paragraphs, words)
  {
    if paragraphs != [] {
      var n := |paragraphs| - 1;
      PackKeepsWhole(paragraphs[..n], words, overlap);
      var p, ws := Pack(paragraphs[..n], words, overlap), Words(paragraphs[n]);
      if p.current != [] { WholesLast(p.done, Packed(p.current)); }
      WindowsAreNotWhole(Flushed(p).done, Windows(ws, words, Step(words, overlap), 0));
    }
  }

  /** The paragraphs within the budget, and no others, are whole in the chunks, each once and in order. */
  lemma ShortParagraphsStayWhole(paragraphs: seq<string>, words: nat, overlap: nat)
    ensures AllWholes(Pieces(paragraphs, words, overlap)) == Fitting(paragraphs, words)
  {
    PackKeepsWhole(paragraphs, words, overlap);
    var p := Pack(paragraphs, words, overlap);
    if p.current != [] { WholesLast(p.done, Packed(p.current)); }
  }

  /**
   A paragraph over the budget becomes windows of `words` words that start `words - overlap` words
   apart, or one word where the overlap leaves no room; together they just reach the last word.
   */
  lemma LongParagraphWindows(paragraph: string, words: nat, overlap: nat)
    requires words >= 1 && |Words(paragraph)| > words
    ensures
      var pieces, step := Pieces([paragraph], words, overlap), if words > overlap then words - overlap else 1;
      && (forall i | 0 <= i < |pieces| ::
            pieces[i].Window? && IsWindow(pieces[i].words, Words(paragraph), words, step, i))
      && Reach(Words(paragraph), step, |pieces|)
  {
    OneLongParagraph(paragraph, words, overlap);
    WindowPiecesAre(Windows(Words(paragraph), words, Step(words, overlap), 0));
    WindowsExactly(Words(paragraph), words, Step(words, overlap));
  }

  lemma OneLongParagraph(paragraph: string, words: nat, overlap: nat)
    requires |Words(paragraph)| > words
    ensures Pieces([paragraph], words, overlap) ==
              WindowPieces(Windows(Words(paragraph), words, Step(words, overlap), 0))
  {
    assert [paragraph][..0] == [];
    var pieces := WindowPieces(Windows(Words(paragraph), words, Step(words, overlap), 0));
    assert Pack([paragraph], words, overlap) == Packing([] + pieces, []);
    assert [] + pieces == pieces;
  }

  lemma {:induction false} TextsAdd(a: seq<Piece>, b: seq<Piece>)
    ensures PieceTexts(a + b) == PieceTexts(a) + PieceTexts(b)
  {
    if b == [] {
      assert a + b == a;
    } else {
      TextsAdd(a, b[..|b| - 1]);
      assert (a + b)[..|a + b| - 1] == a + b[..|b| - 1];
    }
  }

  lemma FlushedText(p: Packing)
    ensures PieceTexts(Flushed(p).done) ==
              PieceTexts(p.done) + (if p.current == [] then [] else [Join(p.current, "\n\n")])
  {
    if p.current != [] {
      TextsAdd(p.done, [Packed(p.current)]);
      assert PieceTexts([Packed(p.current)]) == [Join(p.current, "\n\n")] by { assert [Packed(p.current)][..0] == []; }
    }
  }

  lemma WindowedTexts(done: seq<Piece>, ws: seq<string>, words: nat, overlap: nat)
    ensures
      var windows := Windows(ws, words, Step(words, overlap), 0);
      PieceTexts(done + WindowPieces(windows)) == PieceTexts(done) + WindowTexts(windows, "")
  {
    var windows := Windows(ws, words, Step(words, overlap), 0);
    WindowsFresh(windows, 1);
    TextsAdd(done, WindowPieces(windows));
  }

  /** `chunk_paragraphs`, from the stripped nonempty paragraphs. */
  method ChunkParagraphs(paragraphs: seq<string>, words: nat, overlap: nat) returns (chunks: seq<string>)
    requires words >= 1
    ensures chunks == PieceTexts(Pieces(paragraphs, words, overlap))
  {
    chunks := [];
    var current: seq<string> := [];
    var currentWords := 0;
    for i := 0 to |paragraphs|
      invariant current == Pack(paragraphs[..i], words, overlap).current
      invariant currentWords == |AllWords(current)|
      invariant chunks == PieceTexts(Pack(paragraphs[..i], words, overlap).done)
    {
      ghost var p := Pack(paragraphs[..i], words, overlap);
      assert paragraphs[..i + 1][..i] == paragraphs[..i];
      FlushedText(p);
      var ws := Words(paragraphs[i]);
      if |ws| > words {
        if current != [] { chunks := chunks + [Join(current, "\n\n")]; }
        current, currentWords := [], 0;
        var windows := WindowLoop(ws, words, Max(1, words - overlap), "");
        WindowedTexts(Flushed(p).done, ws, words, overlap);
        chunks := chunks + windows;
      } else {
        if currentWords + |ws| > words {
          if current != [] { chunks := chunks + [Join(current, "\n\n")]; }
          current, currentWords := [], 0;
        }
        OneMoreParagraph(current, paragraphs[i]);
        assert [] + [paragraphs[i]] == [paragraphs[i]];
        current := current + [paragraphs[i]];
        currentWords := currentWords + |ws|;
      }
    }
    assert paragraphs[..|paragraphs|] == paragraphs;
    FlushedText(Pack(paragraphs, words, overlap));
    if current != [] { chunks := chunks + [Join(current, "\n\n")]; }
  }
}

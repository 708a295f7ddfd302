/** Words of a text as `str.split()` yields them, and joining. */
module Texts {

  predicate Space(c: char) {
    || c in {' ', '\t', '\n', '\r'}
    || c as int in {0x0b, 0x0c, 0x1c, 0x1d, 0x1e, 0x1f, 0x85, 0xa0}
    || c as int in {0x1680, 0x2028, 0x2029, 0x202f, 0x205f, 0x3000}
    || 0x2000 <= c as int <= 0x200a
  }

  predicate Blank(s: string) {
    forall c | c in s :: Space(c)
  }

  predicate IsWord(s: string) {
    s != [] && forall c | c in s :: !Space(c)
  }

  /** Length of the word a text begins with. */
  function WordEnd(s: string): (n: nat)
    ensures n <= |s| && forall i | 0 <= i < n :: !Space(s[i])
    ensures n < |s| ==> Space(s[n])
  {
    if s == [] || Space(s[0]) then 0 else 1 + WordEnd(s[1..])
  }

  function Words(s: string): (ws: seq<string>)
    ensures forall w | w in ws :: IsWord(w)
    decreases |s|
  {
    if s == [] then []
    else if Space(s[0]) then Words(s[1..])
    else [s[..WordEnd(s)]] + Words(s[WordEnd(s)..])
  }

  function Join(parts: seq<string>, sep: string): string {
    if parts == [] then []
    else if |parts| == 1 then parts[0]
    else Join(parts[..|parts| - 1], sep) + sep + parts[|parts| - 1]
  }

  function Flat<T>(parts: seq<seq<T>>): seq<T> {
    if parts == [] then [] else Flat(parts[..|parts| - 1]) + parts[|parts| - 1]
  }

  /** The words of several texts, one after the other. */
  function AllWords(texts: seq<string>): seq<string> {
    if texts == [] then [] else AllWords(texts[..|texts| - 1]) + Words(texts[|texts| - 1])
  }

  lemma {:induction false} WordEndStops(a: string, b: string)
    requires b == [] || Space(b[0])
    ensures WordEnd(a + b) == WordEnd(a)
  {
    if a == [] {
      assert a + b == b;
    } else if !Space(a[0]) {
      assert (a + b)[1..] == a[1..] + b;
      WordEndStops(a[1..], b);
    }
  }

  /** A blank between two texts keeps their words apart. */
  lemma {:induction false} WordsSplit(a: string, b: string)
    requires b == [] || Space(b[0])
    ensures Words(a + b) == Words(a) + Words(b)
    decreases |a|
  {
    if a == [] {
      assert a + b == b;
    } else if Space(a[0]) {
      assert (a + b)[1..] == a[1..] + b;
      WordsSplit(a[1..], b);
    } else {
      var n := WordEnd(a);
      WordEndStops(a, b);
      assert (a + b)[..n] == a[..n] && (a + b)[n..] == a[n..] + b;
      WordsSplit(a[n..], b);
    }
  }

  lemma {:induction false} BlanksAreSkipped(a: string, b: string)
    requires Blank(a)
    ensures Words(a + b) == Words(b)
  {
    if a == [] {
      assert a + b == b;
    } else {
      assert a[0] in a && forall c | c in a[1..] :: c in a;
      assert (a + b)[1..] == a[1..] + b;
      BlanksAreSkipped(a[1..], b);
    }
  }

  lemma WordsAround(a: string, sep: string, b: string)
    requires sep != [] && Blank(sep)
    ensures Words(a + sep + b) == Words(a) + Words(b)
  {
    assert sep[0] in sep;
    assert a + sep + b == a + (sep + b);
    WordsSplit(a, sep + b);
    BlanksAreSkipped(sep, b);
  }

  /** Joining by blanks loses no word and makes none. */
  lemma {:induction false} JoinKeepsWords(parts: seq<string>, sep: string)
    requires sep != [] && Blank(sep)
    ensures Words(Join(parts, sep)) == AllWords(parts)
  {
    if |parts| == 1 {
      assert AllWords(parts[..0]) == [];
    } else if parts != [] {
      JoinKeepsWords(parts[..|parts| - 1], sep);
      WordsAround(Join(parts[..|parts| - 1], sep), sep, parts[|parts| - 1]);
    }
  }

  lemma {:induction false} WordEndOfWord(w: string)
    requires forall c | c in w :: !Space(c)
    ensures WordEnd(w) == |w|
  {
    if w != [] {
      assert w[0] in w && forall c | c in w[1..] :: c in w;
      WordEndOfWord(w[1..]);
    }
  }

  lemma WordsOfWord(w: string)
    requires IsWord(w)
    ensures Words(w) == [w]
  {
    WordEndOfWord(w);
    assert w[0] in w && w[|w|..] == "" && w[..|w|] == w;
  }

  lemma {:induction false} WordsOfWords(ws: seq<string>)
    requires forall w | w in ws :: IsWord(w)
    ensures AllWords(ws) == ws
  {
    if ws != [] {
      var n := |ws| - 1;
      WordsOfWords(ws[..n]);
      assert ws[n] in ws;
      WordsOfWord(ws[n]);
      assert ws == ws[..n] + [ws[n]];
    }
  }

  /** Splitting undoes joining with a blank. */
  lemma WordsOfJoin(ws: seq<string>)
    requires forall w | w in ws :: IsWord(w)
    ensures Words(Join(ws, " ")) == ws
  {
    JoinKeepsWords(ws, " ");
    WordsOfWords(ws);
  }

  lemma {:induction false} AllWordsAdds(a: seq<string>, b: seq<string>)
    ensures AllWords(a + b) == AllWords(a) + AllWords(b)
  {
    if b == [] {
      assert a + b == a;
    } else {
      var n := |b| - 1;
      AllWordsAdds(a, b[..n]);
      assert (a + b)[..|a + b| - 1] == a + b[..n];
    }
  }

  lemma FlatLast<T>(a: seq<seq<T>>, x: seq<T>)
    ensures Flat(a + [x]) == Flat(a) + x
  {
    assert (a + [x])[..|a|] == a;
  }

  lemma Associate<T>(a: seq<T>, b: seq<T>, c: seq<T>)
    ensures (a + b) + c == a + (b + c)
  {
  }

  lemma {:induction false} FlatAdds<T>(a: seq<seq<T>>, b: seq<seq<T>>)
    ensures Flat(a + b) == Flat(a) + Flat(b)
  {
    if b == [] {
      assert a + b == a;
    } else {
      var front, last := b[..|b| - 1], b[|b| - 1];
      FlatAdds(a, front);
      FlatLast(a + front, last);
      assert a + b == (a + front) + [last];
      Associate(Flat(a), Flat(front), last);
    }
  }

  /** `strip()`. */
  function Strip(s: string): string {
    if s == [] then []
    else if Space(s[0]) then Strip(s[1..])
    else if Space(s[|s| - 1]) then Strip(s[..|s| - 1])
    else s
  }

  lemma {:induction false} StripKeepsWords(s: string)
    ensures Words(Strip(s)) == Words(s)
  {
    if s == [] {
    } else if Space(s[0]) {
      StripKeepsWords(s[1..]);
    } else if Space(s[|s| - 1]) {
      var front, last := s[..|s| - 1], [s[|s| - 1]];
      StripKeepsWords(front);
      assert s == front + last && last[1..] == [];
      WordsSplit(front, last);
      assert Words(last) == [];
    }
  }

  // ---- splitting at a character

  /** Length of the part before the first separator. */
  function PartEnd(s: string, c: char): (n: nat)
    ensures n <= |s| && forall i | 0 <= i < n :: s[i] != c
    ensures n < |s| ==> s[n] == c
  {
    if s == [] || s[0] == c then 0 else 1 + PartEnd(s[1..], c)
  }

  /** The parts between separators; one more than there are separators. */
  function Split(s: string, c: char): (parts: seq<string>)
    ensures parts != []
    decreases |s|
  {
    var n := PartEnd(s, c);
    if n == |s| then [s] else [s[..n]] + Split(s[n + 1..], c)
  }

  lemma {:induction false} PartEndIs(a: string, c: char, b: string)
    requires c !in a
    ensures PartEnd(a, c) == |a| && PartEnd(a + [c] + b, c) == |a|
  {
    if a == [] {
      assert (a + [c] + b)[0] == c;
    } else {
      assert a[0] in a && (a + [c] + b)[1..] == a[1..] + [c] + b;
      PartEndIs(a[1..], c, b);
    }
  }

  lemma {:induction false} PartEndWithin(s: string, c: char, rest: string)
    requires PartEnd(s, c) < |s|
    ensures PartEnd(s + rest, c) == PartEnd(s, c)
  {
    if s[0] != c {
      assert (s + rest)[1..] == s[1..] + rest;
      PartEndWithin(s[1..], c, rest);
    }
  }

  lemma SplitHere(head: string, c: char, tail: string)
    requires c !in head
    ensures Split(head + [c] + tail, c) == [head] + Split(tail, c)
  {
    var whole := head + [c] + tail;
    PartEndIs(head, c, tail);
    assert whole[..|head|] == head && whole[|head| + 1..] == tail;
  }

  lemma SplitBehindHead(head: string, c: char, tail: string, more: string, parts: seq<string>)
    requires c !in head && Split(more, c) == Split(tail, c) + parts
    ensures Split(head + [c] + more, c) == Split(head + [c] + tail, c) + parts
  {
    SplitHere(head, c, tail);
    SplitHere(head, c, more);
    Associate([head], Split(tail, c), parts);
  }

  lemma CutHere<T>(s: seq<T>, n: nat, rest: seq<T>)
    requires n < |s|
    ensures s == s[..n] + [s[n]] + s[n + 1..] && s + rest == s[..n] + [s[n]] + (s[n + 1..] + rest)
  {
  }

  lemma {:induction false} SplitBefore(s: string, c: char, rest: string)
    ensures Split(s + ([c] + rest), c) == Split(s, c) + Split(rest, c)
    decreases |s|
  {
    var n := PartEnd(s, c);
    if n == |s| {
      SplitHere(s, c, rest);
      assert s + ([c] + rest) == s + [c] + rest;
    } else {
      SplitBefore(s[n + 1..], c, rest);
      SplitBehindHead(s[..n], c, s[n + 1..], s[n + 1..] + ([c] + rest), Split(rest, c));
      CutHere(s, n, [c] + rest);
    }
  }

  /** Splitting goes through a separator. */
  lemma SplitAround(s: string, c: char, rest: string)
    ensures Split(s + [c] + rest, c) == Split(s, c) + Split(rest, c)
  {
    SplitBefore(s, c, rest);
    assert s + [c] + rest == s + ([c] + rest);
  }

  lemma SplitSnoc(s: string, c: char, last: string)
    requires c !in last
    ensures Split(s + [c] + last, c) == Split(s, c) + [last]
  {
    SplitAround(s, c, last);
    PartEndIs(last, c, "");
  }

  /** Splitting undoes joining. */
  lemma {:induction false} SplitOfJoin(parts: seq<string>, c: char)
    requires parts != [] && forall p | p in parts :: c !in p
    ensures Split(Join(parts, [c]), c) == parts
  {
    var n := |parts| - 1;
    assert parts[n] in parts;
    if n == 0 {
      PartEndIs(parts[0], c, "");
    } else {
      SplitOfJoin(parts[..n], c);
      SplitSnoc(Join(parts[..n], [c]), c, parts[n]);
    }
  }

  /** No part holds the separator. */
  lemma {:induction false} SplitParts(s: string, c: char)
    ensures forall p | p in Split(s, c) :: c !in p
    decreases |s|
  {
    var n := PartEnd(s, c);
    if n < |s| { SplitParts(s[n + 1..], c); }
  }

  lemma {:induction false} JoinCons(first: string, parts: seq<string>, sep: string)
    requires parts != []
    ensures Join([first] + parts, sep) == first + sep + Join(parts, sep)
  {
    var n := |parts| - 1;
    assert ([first] + parts)[..n + 1] == [first] + parts[..n];
    if n == 0 {
      assert [first] + parts[..n] == [first];
    } else {
      JoinCons(first, parts[..n], sep);
      assert first + sep + Join(parts[..n], sep) + sep + parts[n] ==
             first + sep + (Join(parts[..n], sep) + sep + parts[n]);
    }
  }

  /** Joining undoes splitting. */
  lemma {:induction false} JoinOfSplit(s: string, c: char)
    ensures Join(Split(s, c), [c]) == s
    decreases |s|
  {
    var n := PartEnd(s, c);
    if n < |s| {
      JoinOfSplit(s[n + 1..], c);
      JoinCons(s[..n], Split(s[n + 1..], c), [c]);
    }
  }

  lemma SplitInjective(s: string, t: string, c: char)
    ensures Split(s, c) == Split(t, c) <==> s == t
  {
    JoinOfSplit(s, c);
    JoinOfSplit(t, c);
  }
}

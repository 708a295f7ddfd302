/**
 Point identity. A point id is the UUIDv5 (section 5.5 of RFC 9562) of `job|source#index`; UUIDv5
 is taken as injective, so what has to be proved is that the name determines its three parts,
 although a source may itself contain `|`, `#` and digits.
 */
module Ids {

  /** A UUIDv5 in the ingestion namespace, standing for the name it was made from. */
  datatype Uuid = Uuid5(name: string)

  const SLUG_MAX: nat := 64

  predicate SlugStart(c: char) {
    'a' <= c <= 'z' || '0' <= c <= '9'
  }

  /** SLUG_PATTERN: what a job id looks like. */
  predicate Slug(s: string) {
    && 0 < |s| <= SLUG_MAX && SlugStart(s[0])
    && forall i | 0 < i < |s| :: SlugStart(s[i]) || s[i] == '_' || s[i] == '-'
  }

  function Digit(d: nat): char
    requires d < 10
  {
    '0' + d as char
  }

  /** `str(n)`. */
  function Decimal(n: nat): (s: string)
    ensures |s| > 0 && forall c | c in s :: '0' <= c <= '9'
  {
    if n < 10 then [Digit(n)] else Decimal(n / 10) + [Digit(n % 10)]
  }

  function PointId(job: string, source: string, index: nat): Uuid {
    Uuid5(job + "|" + source + "#" + Decimal(index))
  }

  lemma {:induction false} DecimalInjective(m: nat, n: nat)
    requires Decimal(m) == Decimal(n)
    ensures m == n
  {
    if m < 10 || n < 10 {
      assert |Decimal(m)| == 1 <==> m < 10;
      assert |Decimal(n)| == 1 <==> n < 10;
    } else {
      var a, b := Decimal(m), Decimal(n);
      assert a[|a| - 1] == Digit(m % 10) && b[|b| - 1] == Digit(n % 10);
      assert a[..|a| - 1] == Decimal(m / 10) && b[..|b| - 1] == Decimal(n / 10);
      DecimalInjective(m / 10, n / 10);
    }
  }

  /** The first separator is where the part without separators ends. */
  lemma SplitFirst(a: string, x: string, b: string, y: string, c: char)
    requires c !in a && c !in b && a + [c] + x == b + [c] + y
    ensures a == b && x == y
  {
    var s, t := a + [c] + x, b + [c] + y;
    assert s[|a|] == c && t[|b|] == c;
    assert forall i | 0 <= i < |a| :: s[i] == a[i] && a[i] in a;
    assert forall i | 0 <= i < |b| :: t[i] == b[i] && b[i] in b;
    assert a == s[..|a|] && b == t[..|b|];
    assert x == s[|a| + 1..] && y == t[|b| + 1..];
  }

  /** The last separator is where the part without separators begins. */
  lemma SplitLast(x: string, a: string, y: string, b: string, c: char)
    requires c !in a && c !in b && x + [c] + a == y + [c] + b
    ensures a == b && x == y
  {
    var s, t := x + [c] + a, y + [c] + b;
    assert s[|x|] == c && t[|y|] == c;
    assert forall i | |x| < i < |s| :: s[i] == a[i - |x| - 1] && s[i] in a;
    assert forall i | |y| < i < |t| :: t[i] == b[i - |y| - 1] && t[i] in b;
    assert x == s[..|x|] && y == t[..|y|];
    assert a == s[|x| + 1..] && b == t[|y| + 1..];
  }

  /** Two points share an id only if they are the same chunk of the same document of the same job. */
  lemma PointIdInjective(job: string, source: string, index: nat, job': string, source': string, index': nat)
    requires Slug(job) && Slug(job')
    requires PointId(job, source, index) == PointId(job', source', index')
    ensures job == job' && source == source' && index == index'
  {
    var d, d' := Decimal(index), Decimal(index');
    assert job + "|" + source + "#" + d == job + ['|'] + (source + "#" + d);
    assert job' + "|" + source' + "#" + d' == job' + ['|'] + (source' + "#" + d');
    SplitFirst(job, source + "#" + d, job', source' + "#" + d', '|');
    SplitLast(source, d, source', d', '#');
    DecimalInjective(index, index');
  }

  /** Without the slug rule the name is ambiguous: a `|` may belong to either part. */
  lemma UnrestrictedJobsCollide()
    ensures PointId("a", "b|c", 0) == PointId("a|b", "c", 0)
  {
    assert "a" + "|" + "b|c" == "a|b" + "|" + "c";
  }
}

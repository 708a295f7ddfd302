/**
 Stored timestamps: UTC, explicit offset, and a six-digit fraction that is left out when it is zero.
 That last point is outside the condition under which section 5.1 of RFC 3339 promises that text
 order is time order, and it holds all the same.
 */
module Timestamps {
  import opened Order
  import opened Ids

  /** An instant by its UTC calendar fields. */
  datatype Instant = Instant(year: nat, month: nat, day: nat, hour: nat, minute: nat, second: nat, micro: nat)

  predicate Proper(t: Instant) {
    && 1 <= t.year <= 9999 && 1 <= t.month <= 12 && 1 <= t.day <= 31
    && t.hour < 24 && t.minute < 60 && t.second < 60 && t.micro < 1_000_000
  }

  function Fields(t: Instant): seq<nat> {
    [t.year, t.month, t.day, t.hour, t.minute, t.second, t.micro]
  }

  /** The first field that differs decides. */
  predicate Earlier(a: seq<nat>, b: seq<nat>)
    requires |a| == |b|
  {
    a != [] && (a[0] < b[0] || (a[0] == b[0] && Earlier(a[1..], b[1..])))
  }

  /** `n` in `width` digits, zeros in front. */
  function Pad(width: nat, n: nat): (s: string)
    ensures |s| == width
  {
    if width == 0 then "" else Pad(width - 1, n / 10) + [Digit(n % 10)]
  }

  function Power10(width: nat): nat {
    if width == 0 then 1 else 10 * Power10(width - 1)
  }

  function Fraction(micro: nat): string {
    if micro == 0 then "" else "." + Pad(6, micro)
  }

  /** `instant_iso`; `offset` is how UTC is written. */
  function Text(t: Instant, offset: string): string {
    Pad(4, t.year) + ("-" + (Pad(2, t.month) + ("-" + (Pad(2, t.day) + ("T" + (Pad(2, t.hour) + (":" + (Pad(2, t.minute)
      + (":" + (Pad(2, t.second) + (Fraction(t.micro) + offset)))))))))))
  }

  const UTC: string := "+00:00"

  // ---- text order of fixed-width fields

  /** Equally long fronts decide unless they are equal. */
  lemma {:induction false} FrontsDecide(p: string, x: string, q: string, y: string)
    requires |p| == |q|
    ensures AtMost(p + x, q + y) <==> if p == q then AtMost(x, y) else AtMost(p, q)
  {
    if p == [] {
      assert p + x == x && q + y == y;
    } else {
      assert (p + x)[1..] == p[1..] + x && (q + y)[1..] == q[1..] + y;
      FrontsDecide(p[1..], x, q[1..], y);
      assert p == [p[0]] + p[1..] && q == [q[0]] + q[1..];
    }
  }

  lemma {:induction false} PadOrder(width: nat, m: nat, n: nat)
    requires m < Power10(width) && n < Power10(width)
    ensures AtMost(Pad(width, m), Pad(width, n)) <==> m <= n
    ensures Pad(width, m) == Pad(width, n) <==> m == n
  {
    if width > 0 {
      PadOrder(width - 1, m / 10, n / 10);
      var p, q := Pad(width - 1, m / 10), Pad(width - 1, n / 10);
      FrontsDecide(p, [Digit(m % 10)], q, [Digit(n % 10)]);
      assert Pad(width, m)[..width - 1] == p && Pad(width, n)[..width - 1] == q;
      assert Pad(width, m)[width - 1] == Digit(m % 10) && Pad(width, n)[width - 1] == Digit(n % 10);
    }
  }

  /** One field and its separator: the field decides, and if it is equal what follows. */
  lemma FieldDecides(width: nat, m: nat, n: nat, sep: string, x: string, y: string)
    requires m < Power10(width) && n < Power10(width)
    ensures AtMost(Pad(width, m) + (sep + x), Pad(width, n) + (sep + y)) <==> m < n || (m == n && AtMost(x, y))
  {
    PadOrder(width, m, n);
    FrontsDecide(Pad(width, m), sep + x, Pad(width, n), sep + y);
    FrontsDecide(sep, x, sep, y);
  }

  /** No fraction sorts before any fraction, because `+` sorts before `.`. */
  lemma FractionDecides(m: nat, n: nat)
    requires m < 1_000_000 && n < 1_000_000
    ensures AtMost(Fraction(m) + UTC, Fraction(n) + UTC) <==> m <= n
  {
    assert Power10(6) == 1_000_000 by { assert Power10(3) == 1000; }
    if m > 0 && n > 0 {
      assert Fraction(m) + UTC == "." + (Pad(6, m) + UTC) && Fraction(n) + UTC == "." + (Pad(6, n) + UTC);
      FrontsDecide(".", Pad(6, m) + UTC, ".", Pad(6, n) + UTC);
      PadOrder(6, m, n);
      FrontsDecide(Pad(6, m), UTC, Pad(6, n), UTC);
      Total(UTC, UTC);
    } else if m == n {
      Total(UTC, UTC);
      assert Fraction(0) + UTC == UTC;
    } else {
      var k := if m > 0 then m else n;
      assert (Fraction(k) + UTC)[0] == '.' && Fraction(0) + UTC == UTC && UTC[0] == '+';
    }
  }

  lemma Widths()
    ensures Power10(2) == 100 && Power10(4) == 10_000
  {
    assert Power10(1) == 10 && Power10(3) == 1000;
  }

  /** Comparing stored texts compares instants. */
  lemma TextOrderIsTimeOrder(a: Instant, b: Instant)
    requires Proper(a) && Proper(b)
    ensures AtMost(Text(a, UTC), Text(b, UTC)) <==> a == b || Earlier(Fields(a), Fields(b))
    ensures Before(Text(a, UTC), Text(b, UTC)) <==> Earlier(Fields(a), Fields(b))
  {
    OneWay(a, b);
    OneWay(b, a);
    Total(Text(a, UTC), Text(b, UTC));
    EarlierIsStrict(Fields(a), Fields(b));
    FieldsTell(a, b);
  }

  lemma FieldsTell(a: Instant, b: Instant)
    ensures Fields(a) == Fields(b) <==> a == b
  {
    var x, y := Fields(a), Fields(b);
    if x == y {
      assert x[0] == y[0] && x[1] == y[1] && x[2] == y[2] && x[3] == y[3] && x[4] == y[4] && x[5] == y[5] &&
             x[6] == y[6];
    }
  }

  lemma {:induction false} EarlierIsStrict(a: seq<nat>, b: seq<nat>)
    requires |a| == |b|
    ensures !(Earlier(a, b) && Earlier(b, a)) && (a == b ==> !Earlier(a, b))
    ensures a == b || Earlier(a, b) || Earlier(b, a)
  {
    if a != [] {
      EarlierIsStrict(a[1..], b[1..]);
      assert a == [a[0]] + a[1..] && b == [b[0]] + b[1..];
    }
  }

  function TimeTail(t: Instant): string {
    Pad(2, t.hour) + (":" + (Pad(2, t.minute) + (":" + (Pad(2, t.second) + (Fraction(t.micro) + UTC)))))
  }

  lemma TimeDecides(a: Instant, b: Instant)
    requires Proper(a) && Proper(b)
    ensures AtMost(TimeTail(a), TimeTail(b)) <==>
              a.hour < b.hour || (a.hour == b.hour && (a.minute < b.minute || (a.minute == b.minute &&
              (a.second < b.second || (a.second == b.second && a.micro <= b.micro)))))
  {
    Widths();
    FractionDecides(a.micro, b.micro);
    var x, y := Fraction(a.micro) + UTC, Fraction(b.micro) + UTC;
    FrontsDecide(Pad(2, a.second), x, Pad(2, b.second), y);
    PadOrder(2, a.second, b.second);
    FieldDecides(2, a.minute, b.minute, ":", Pad(2, a.second) + x, Pad(2, b.second) + y);
    FieldDecides(2, a.hour, b.hour, ":", Pad(2, a.minute) + (":" + (Pad(2, a.second) + x)),
                 Pad(2, b.minute) + (":" + (Pad(2, b.second) + y)));
  }

  lemma OneWay(a: Instant, b: Instant)
    requires Proper(a) && Proper(b)
    ensures AtMost(Text(a, UTC), Text(b, UTC)) <==> a == b || Earlier(Fields(a), Fields(b))
  {
    Widths();
    TimeDecides(a, b);
    var x, y := TimeTail(a), TimeTail(b);
    FieldDecides(2, a.day, b.day, "T", x, y);
    FieldDecides(2, a.month, b.month, "-", Pad(2, a.day) + ("T" + x), Pad(2, b.day) + ("T" + y));
    FieldDecides(4, a.year, b.year, "-", Pad(2, a.month) + ("-" + (Pad(2, a.day) + ("T" + x))),
                 Pad(2, b.month) + ("-" + (Pad(2, b.day) + ("T" + y))));
    EarlierUnrolled(a, b);
  }

  lemma EarlierUnrolled(a: Instant, b: Instant)
    ensures Earlier(Fields(a), Fields(b)) <==>
              a.year < b.year || (a.year == b.year && (a.month < b.month || (a.month == b.month &&
              (a.day < b.day || (a.day == b.day && (a.hour < b.hour || (a.hour == b.hour &&
              (a.minute < b.minute || (a.minute == b.minute && (a.second < b.second || (a.second == b.second &&
              a.micro < b.micro)))))))))))
  {
    EarlierAt(a.second, b.second, [a.micro], [b.micro]);
    EarlierAt(a.micro, b.micro, [], []);
    EarlierAt(a.minute, b.minute, [a.second, a.micro], [b.second, b.micro]);
    EarlierAt(a.hour, b.hour, [a.minute, a.second, a.micro], [b.minute, b.second, b.micro]);
    EarlierAt(a.day, b.day, [a.hour, a.minute, a.second, a.micro], [b.hour, b.minute, b.second, b.micro]);
    EarlierAt(a.month, b.month, [a.day, a.hour, a.minute, a.second, a.micro],
              [b.day, b.hour, b.minute, b.second, b.micro]);
    EarlierAt(a.year, b.year, [a.month, a.day, a.hour, a.minute, a.second, a.micro],
              [b.month, b.day, b.hour, b.minute, b.second, b.micro]);
  }

  lemma EarlierAt(m: nat, n: nat, a: seq<nat>, b: seq<nat>)
    requires |a| == |b|
    ensures Earlier([m] + a, [n] + b) <==> m < n || (m == n && Earlier(a, b))
  {
    assert ([m] + a)[1..] == a && ([n] + b)[1..] == b;
  }

  /** Written with a `Z` instead, a whole second would sort after its own fractions. */
  lemma ZuluMisorders(t: Instant)
    requires Proper(t) && t.micro > 0
    ensures
      var whole := t.(micro := 0);
      Earlier(Fields(whole), Fields(t)) && Before(Text(t, "Z"), Text(whole, "Z"))
  {
    var whole := t.(micro := 0);
    EarlierUnrolled(whole, t);
    var front := Text(whole, "");
    DropFraction(t, "Z");
    DropFraction(whole, "Z");
    FrontsDecide(front, Fraction(t.micro) + "Z", front, "Z");
    assert (Fraction(t.micro) + "Z")[0] == '.' && "Z"[0] == 'Z';
    assert Fraction(0) + "Z" == "Z";
    FrontsDecide(front, "Z", front, Fraction(t.micro) + "Z");
  }

  /** The part before the fraction does not depend on it. */
  lemma DropFraction(t: Instant, offset: string)
    ensures Text(t, offset) == Text(t.(micro := 0), "") + (Fraction(t.micro) + offset)
  {
  }
}

/** The progress reporter of the renderer: a percentage, rounded to the
    nearest ten and capped at 100, printed only when it is larger than the
    last one printed. */
module Progress {
  import opened Reals

  /** r is what Swift's `round` gives for x: the nearest integer, with
      halves rounded away from zero. */
  ghost predicate IsRounded(x: real, r: int) {
    if x >= 0.0 then r as real - 0.5 <= x < r as real + 0.5
    else r as real - 0.5 < x <= r as real + 0.5
  }

  /** `round` has one answer for each x. */
  lemma RoundedIsUnique(x: real, r1: int, r2: int)
    requires IsRounded(x, r1) && IsRounded(x, r2)
    ensures r1 == r2
  {
  }

  /** Rounding is monotone: a larger x never rounds lower. */
  lemma RoundedIsMonotone(x1: real, x2: real, r1: int, r2: int)
    requires x1 <= x2 && IsRounded(x1, r1) && IsRounded(x2, r2)
    ensures r1 <= r2
  {
  }

  /** For a positive d, q is the rounded quotient of n / d when
      2qd - d <= 2n < 2qd + d. */
  lemma RoundedQuotientBounds(n: int, d: int, q: int)
    requires d > 0
    requires 2 * q * d - d <= 2 * n < 2 * q * d + d
    ensures q as real - 0.5 <= n as real / d as real < q as real + 0.5
  {
    var nr, dr, qr := n as real, d as real, q as real;
    CastProduct(q, d);
    var qd := qr * dr;
    assert 2.0 * qd - dr <= 2.0 * nr < 2.0 * qd + dr;
    var x := nr / dr;
    DivideMultiply(nr, dr);
    var xd := x * dr;
    assert xd == nr;
    var lo, hi := (qr - 0.5) * dr, (qr + 0.5) * dr;
    assert lo == qd - 0.5 * dr;
    assert hi == qd + 0.5 * dr;
    assert lo <= xd;
    assert xd < hi;
    MultiplyPositive(qr - 0.5, x, dr);
    MultiplyPositive(x, qr + 0.5, dr);
    assert qr - 0.5 <= x;
    assert x < qr + 0.5;
  }

  /** round(n / d) for a positive d, computed exactly in integers:
      for n >= 0 it is floor((2n + d) / 2d), and a negative n rounds to
      the negation of the rounding of -n. */
  function RoundQuotient(n: int, d: int): (r: int)
    requires d > 0
    ensures n >= 0 ==> r >= 0
    ensures n <= 0 ==> r <= 0
  {
    if n >= 0 then (2 * n + d) / (2 * d) else -((2 * -n + d) / (2 * d))
  }

  /** `RoundQuotient` is Swift's `round` of the quotient. */
  lemma RoundQuotientIsRounded(n: int, d: int)
    requires d > 0
    ensures IsRounded(n as real / d as real, RoundQuotient(n, d))
  {
    if n >= 0 {
      HalfUpQuotient(n, d);
      RoundedQuotientBounds(n, d, RoundQuotient(n, d));
    } else {
      var q := (2 * -n + d) / (2 * d);
      HalfUpQuotient(-n, d);
      RoundedQuotientBounds(-n, d, q);
      assert (-n) as real / d as real == -(n as real / d as real);
    }
  }

  /** The Euclidean quotient q = (2n + d) / 2d satisfies 2qd - d <= 2n < 2qd + d. */
  lemma HalfUpQuotient(n: int, d: int)
    requires d > 0
    ensures var q := (2 * n + d) / (2 * d);
      2 * q * d - d <= 2 * n < 2 * q * d + d
  {
    var m := 2 * d;
    var a := 2 * n + d;
    var q := a / m;
    assert a == m * q + a % m;
    assert 2 * q * d == m * q;
  }

  /** The percentage `progress` computes for `current` rows out of `total`:
      10 * round(10 * current / total), capped at 100. It is a multiple of
      10 in [0, 100] for a non-negative `current`, and it is 100 exactly
      when current / total >= 0.95. */
  function Percent(current: int, total: int): (p: int)
    requires total > 0
    ensures p <= 100 && p % 10 == 0
    ensures current >= 0 ==> p >= 0
    ensures p == 100 <==> 20 * current >= 19 * total
  {
    var tenths := RoundQuotient(10 * current, total);
    RoundQuotientIsRounded(10 * current, total);
    ReachesHundred(10 * current, total, tenths);
    if 10 * tenths >= 100 then 100 else 10 * tenths
  }

  /** Below the cap, the percentage is ten times the rounded value of
      10 * current / total. */
  lemma PercentIsRoundedTenths(current: int, total: int)
    requires total > 0 && Percent(current, total) < 100
    ensures IsRounded((10 * current) as real / total as real, Percent(current, total) / 10)
  {
    RoundQuotientIsRounded(10 * current, total);
  }

  /** The rounded quotient of n / d is at least 10 exactly when 2n >= 19d. */
  lemma ReachesHundred(n: int, d: int, r: int)
    requires d > 0 && IsRounded(n as real / d as real, r)
    ensures r >= 10 <==> 2 * n >= 19 * d
  {
    var nr, dr := n as real, d as real;
    assert r >= 10 <==> nr / dr >= 9.5;
    QuotientAtLeast(nr, dr, 9.5);
    assert 2 * n >= 19 * d <==> 9.5 * dr <= nr;
  }

  /** For a positive d, n / d >= c exactly when n >= c * d. */
  lemma QuotientAtLeast(n: real, d: real, c: real)
    requires d > 0.0
    ensures n / d >= c <==> n >= c * d
  {
    var x := n / d;
    DivideMultiply(n, d);
    var xd, cd := x * d, c * d;
    assert xd == n;
    MultiplyPositive(c, x, d);
    MultiplyPositive(x, c, d);
    assert x < c ==> xd < cd;
    assert x >= c ==> xd >= cd;
  }

  /** More rows processed never gives a smaller percentage. */
  lemma PercentIsMonotone(c1: int, c2: int, total: int)
    requires total > 0 && c1 <= c2
    ensures Percent(c1, total) <= Percent(c2, total)
  {
    var t := total as real;
    var x1 := (10 * c1) as real / t;
    var x2 := (10 * c2) as real / t;
    assert x1 * t == (10 * c1) as real && x2 * t == (10 * c2) as real;
    assert x1 <= x2;
    RoundQuotientIsRounded(10 * c1, total);
    RoundQuotientIsRounded(10 * c2, total);
    RoundedIsMonotone(x1, x2, RoundQuotient(10 * c1, total), RoundQuotient(10 * c2, total));
  }

  /** Once `current` reaches `total`, the percentage is 100 and no more. */
  lemma PercentAtTotal(current: int, total: int)
    requires total > 0 && current >= total
    ensures Percent(current, total) == 100
  {
  }

  /** The progress reporter: the global `lastPercent` and the milestones
      written so far to standard output, in order. */
  class Reporter {
    var lastPercent: int
    var emitted: seq<int>

    /** The printed milestones are multiples of 10 in [0, 100], strictly
        increasing, and `lastPercent` is the last of them (-1 before any). */
    ghost predicate Valid()
      reads this
    {
      (emitted == [] ==> lastPercent == -1) &&
      (emitted != [] ==> lastPercent == emitted[|emitted| - 1]) &&
      (forall i :: 0 <= i < |emitted| ==> 0 <= emitted[i] <= 100 && emitted[i] % 10 == 0) &&
      (forall i, j :: 0 <= i < j < |emitted| ==> emitted[i] < emitted[j])
    }

    constructor ()
      ensures Valid()
      ensures lastPercent == -1 && emitted == []
    {
      lastPercent := -1;
      emitted := [];
    }

    /** `progress(current, total)`: print the percentage when it exceeds the
        last one printed. */
    method Report(current: int, total: int)
      requires Valid() && total > 0
      modifies this
      ensures Valid()
      ensures lastPercent == if Percent(current, total) > old(lastPercent)
                             then Percent(current, total) else old(lastPercent)
      ensures emitted == if Percent(current, total) > old(lastPercent)
                         then old(emitted) + [Percent(current, total)] else old(emitted)
    {
      var percent := Percent(current, total);
      if percent > lastPercent {
        lastPercent := percent;
        emitted := emitted + [percent];
      }
    }
  }
}

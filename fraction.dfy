/** `#calculateFraction`: the leftover of the smallest unit rounded to the nearest
    1/denominator, reduced by the gcd and printed as "", "1" or "n/d". */
module Fractions {
  import opened JsText
  import opened Rounding
  import opened Interfaces

  /** `#calculateFraction(fractionPart)` with `this.#options.denominator`. The
      divisions are the source's number divisions, so they are done on reals. */
  function CalculateFraction(fractionPart: real, denominator: Denominator): string {
    Reduce(JsRound(fractionPart * denominator as real), denominator)
  }

  /** The part after the rounding: divide numerator and denominator by their gcd. */
  function Reduce(numerator: int, denominator: Denominator): string {
    var common := Gcd(numerator, denominator);
    FractionText(numerator as real / common as real, denominator as real / common as real)
  }

  /** The three outcomes of `#calculateFraction` for a reduced numerator and denominator. */
  function FractionText(n: real, d: real): string {
    if n == 0.0 then ""
    else if n == d then "1"
    else NumberToString(n) + "/" + NumberToString(d)
  }

  /** A positive divisor of a positive number is at most that number. */
  lemma DividesBounded(c: int, x: int)
    requires c > 0 && x > 0 && Divides(c, x)
    ensures c <= x
  {
    var k := x / c;
    assert x == c * k;
    MulSign(c, k);
  }

  /** Scaling a divisor: if h divides n then h * g divides n * g. */
  lemma DividesScaled(h: int, n: int, g: int)
    requires h > 0 && g > 0 && Divides(h, n)
    ensures Divides(h * g, n * g)
  {
    var a := n / h;
    assert n == h * a;
    assert n * g == (h * g) * a;
    MultipleMod(h * g, a);
  }

  /** The gcd of a positive q and a positive den is positive and divides both. */
  lemma GcdFactors(q: nat, den: Denominator)
    requires q > 0
    ensures var g := Gcd(q, den);
      g > 0 && q % g == 0 && den % g == 0 && q == (q / g) * g && den == (den / g) * g
  {
    GcdDividesBoth(q, den);
  }

  /** Dividing 0 < q < den by a common positive factor keeps 0 < n < d. */
  lemma ProperAfterDivision(q: int, den: int, g: int, n: int, d: int)
    requires 0 < q < den && g > 0 && q == n * g && den == d * g
    ensures 0 < n < d
  {
    MulSign(g, n);
    assert g * (d - n) == den - q;
    MulSign(g, d - n);
  }

  /** n * den == q * d when q == n * g and den == d * g. */
  lemma CrossProduct(q: int, den: int, g: int, n: int, d: int)
    requires q == n * g && den == d * g
    ensures n * den == q * d
  {
    calc {
      n * den;
      n * (d * g);
      (n * g) * d;
    }
  }

  /** After dividing q and den by their gcd no common factor above 1 is left. */
  lemma LowestTerms(q: nat, den: Denominator, g: int, n: nat, d: nat)
    requires q > 0 && g == Gcd(q, den) && g > 0 && q == n * g && den == d * g && d > 0
    ensures Gcd(n, d) == 1
  {
    var h := Gcd(n, d);
    GcdDividesBoth(n, d);
    assert h >= 1;
    var c := h * g;
    DividesScaled(h, n, g);
    DividesScaled(h, d, g);
    assert c == g * h;
    assert Divides(c, q) && Divides(c, den);
    MulSign(g, h);
    assert c > 0;
    GcdGreatest(q, den, c);
    assert Divides(c, g);
    DividesBounded(c, g);
    MulStep(g, h);
    MulSign(g, h - 1);
  }

  lemma MulStep(d: int, t: int)
    ensures d * (t - 1) == d * t - d
  {
  }

  /** For 0 < q < den the gcd reduction gives a proper fraction in lowest terms
      whose denominator divides `den` and whose value is q / den. */
  lemma ReducedParts(q: nat, den: Denominator)
    requires 0 < q < den
    ensures var g := Gcd(q, den);
      g > 0 && q % g == 0 && den % g == 0 &&
      var n, d := q / g, den / g;
      0 < n < d && Gcd(n, d) == 1 && den % d == 0 && n * den == q * d
  {
    var g := Gcd(q, den);
    GcdFactors(q, den);
    var n, d := q / g, den / g;
    ProperAfterDivision(q, den, g, n, d);
    MultipleMod(d, g);
    assert d * g == den;
    CrossProduct(q, den, g, n, d);
    LowestTerms(q, den, g, n, d);
  }

  /** The number text of a whole number held as a real is its digits. */
  lemma WholeText(n: nat)
    ensures NumberToString(n as real) == NatToString(n)
  {
    assert (n as real).Floor == n;
  }

  /** Dividing two reals that are whole multiples of g gives the whole quotient. */
  lemma WholeQuotient(x: int, g: int)
    requires g > 0 && x % g == 0
    ensures x as real / g as real == (x / g) as real
  {
    var k := x / g;
    assert x == k * g;
    assert (x as real) == (k as real) * (g as real);
  }

  /** gcd(d, d) == d, and gcd(0, d) == d */
  lemma GcdSelf(d: Denominator)
    ensures Gcd(d, d) == d && Gcd(0, d) == d
  {
    MultipleMod(d, 1);
    assert JsRem(d, d) == 0;
    assert Gcd(d, d) == Gcd(d, 0);
    assert JsRem(0, d) == 0;
    assert Gcd(0, d) == Gcd(d, 0);
  }

  /** The reduction of a numerator 0 <= q <= den: "" exactly when q is 0, "1"
      exactly when q is den, and otherwise n/d in lowest terms with 0 < n < d,
      d dividing den and n/d == q/den. */
  lemma ReduceCases(q: int, den: Denominator)
    requires 0 <= q <= den
    ensures var r := Reduce(q, den);
      (r == "" <==> q == 0) &&
      (r == "1" <==> q == den) &&
      (0 < q < den ==>
        var g := Gcd(q, den);
        g > 0 &&
        var n, d := q / g, den / g;
        0 < n < d && Gcd(n, d) == 1 && den % d == 0 && n * den == q * d &&
        r == NatToString(n) + "/" + NatToString(d))
  {
    var r := Reduce(q, den);
    var g := Gcd(q, den);
    GcdSelf(den);
    if q == 0 {
      assert g == den;
      assert q as real == 0.0;
      ZeroQuotient(g as real);
      assert r == FractionText(0.0, den as real / g as real);
    } else if q == den {
      assert g == den;
      SelfQuotient(den as real);
      assert r == FractionText(1.0, 1.0);
    } else {
      ReducedParts(q, den);
      var n, d := q / g, den / g;
      WholeQuotient(q, g);
      WholeQuotient(den, g);
      assert r == FractionText(n as real, d as real);
      WholeText(n);
      WholeText(d);
      assert r == NatToString(n) + "/" + NatToString(d);
      assert |r| >= 3;
    }
  }

  lemma ZeroQuotient(x: real)
    requires x != 0.0
    ensures 0.0 / x == 0.0
  {
  }

  lemma SelfQuotient(x: real)
    requires x != 0.0
    ensures x / x == 1.0
  {
  }

  lemma ScaledBelow(f: real, den: real)
    requires 0.0 <= f < 1.0 && den > 0.0
    ensures 0.0 <= f * den < den
  {
    assert den - f * den == (1.0 - f) * den;
  }

  /** A leftover in [0, 1) rounds to a numerator between 0 and den. */
  lemma NumeratorRange(fractionPart: real, den: Denominator)
    requires 0.0 <= fractionPart < 1.0
    ensures 0 <= JsRound(fractionPart * den as real) <= den
  {
    ScaledBelow(fractionPart, den as real);
  }

  /** `#calculateFraction` for a leftover in [0, 1): the rounded numerator q lies
      in 0..den, and the text is "" for q == 0, "1" for q == den and otherwise
      the reduced n/d (see `ReduceCases`). */
  lemma CalculateFractionCases(fractionPart: real, den: Denominator)
    requires 0.0 <= fractionPart < 1.0
    ensures var q := JsRound(fractionPart * den as real);
      var r := CalculateFraction(fractionPart, den);
      0 <= q <= den &&
      (r == "" <==> q == 0) &&
      (r == "1" <==> q == den) &&
      (0 < q < den ==>
        var g := Gcd(q, den);
        g > 0 &&
        var n, d := q / g, den / g;
        0 < n < d && Gcd(n, d) == 1 && den % d == 0 && n * den == q * d &&
        r == NatToString(n) + "/" + NatToString(d))
  {
    var q := JsRound(fractionPart * den as real);
    assert CalculateFraction(fractionPart, den) == Reduce(q, den);
    NumeratorRange(fractionPart, den);
    ReduceCases(q, den);
  }

  /** Nothing left over gives no fraction text. */
  lemma ZeroFraction(den: Denominator)
    ensures CalculateFraction(0.0, den) == ""
  {
    assert JsRound(0.0 * den as real) == 0;
    ReduceCases(0, den);
  }

  /** One millimetre leaves 1/25.4 inch, which is 1/16 at the default
      denominator and 1/32 at denominator 32. */
  lemma OneMillimetreFraction()
    ensures CalculateFraction(1.0 / 25.4, 16) == "1/16"
    ensures CalculateFraction(1.0 / 25.4, 32) == "1/32"
  {
    MillimetreFraction(1.0 / 25.4, 16);
    MillimetreFraction(1.0 / 25.4, 32);
    assert NatToString(16) == "16" && NatToString(32) == "32";
  }

  /** With any denominator from 13 to 38, 1/25.4 inch rounds to one part. */
  lemma MillimetreFraction(f: real, den: Denominator)
    requires f * 25.4 == 1.0 && 13 <= den <= 38
    ensures CalculateFraction(f, den) == "1/" + NatToString(den)
  {
    var x := f * den as real;
    assert 0.5 <= x < 1.5 by {
      assert x * 25.4 == den as real;
    }
    assert JsRound(x) == 1;
    ReduceOne(den);
  }

  /** A numerator of one prints as "1/den". */
  lemma ReduceOne(den: Denominator)
    requires den > 1
    ensures Reduce(1, den) == "1/" + NatToString(den)
  {
    assert JsRem(1, den) == 1;
    assert JsRem(den, 1) == 0;
    var g := Gcd(1, den);
    assert g == Gcd(den, 1) == Gcd(1, 0) == 1;
    assert 1 as real / g as real == 1.0;
    assert den as real / g as real == den as real;
    assert Reduce(1, den) == FractionText(1.0, den as real);
    WholeText(1);
    WholeText(den);
  }

  /** The fraction text is written with digits and '/' (and '-' or '.' for
      the numbers `String` prints). */
  lemma CalculateFractionText(fractionPart: real, denominator: Denominator)
    ensures NumberText(CalculateFraction(fractionPart, denominator))
  {
    ReduceText(JsRound(fractionPart * denominator as real), denominator);
  }

  lemma ReduceText(numerator: int, denominator: Denominator)
    ensures NumberText(Reduce(numerator, denominator))
  {
    var g := Gcd(numerator, denominator);
    FractionTextText(numerator as real / g as real, denominator as real / g as real);
  }

  lemma FractionTextText(n: real, d: real)
    ensures NumberText(FractionText(n, d))
  {
    if n != 0.0 && n != d {
      NumberToStringText(n);
      NumberToStringText(d);
      NumberTextJoin(NumberToString(n), "/");
      NumberTextJoin(NumberToString(n) + "/", NumberToString(d));
    } else if n != 0.0 {
      assert FractionText(n, d) == "1";
    }
  }
}

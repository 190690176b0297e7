/** The two static helpers of class `Inch`: `Inch.round`, a rounding function
    with four numeric behaviours, and `Inch.gcd`, Euclid's algorithm over
    JavaScript's `%`. */
module Rounding {
  import opened Wrappers
  import opened JsText

  /** JavaScript `Math.floor`. */
  function Floor(x: real): (n: int)
    ensures n as real <= x < n as real + 1.0
  {
    x.Floor
  }

  /** JavaScript `Math.round`: the nearest integer, halves rounded toward +infinity. */
  function JsRound(x: real): (n: int)
    ensures n as real - 0.5 <= x < n as real + 0.5
  {
    (x + 0.5).Floor
  }

  function Pow10(n: nat): (r: nat)
    ensures r >= 1
  {
    if n == 0 then 1 else 10 * Pow10(n - 1)
  }

  /** `10 ** k` for a whole exponent, negative exponents included. */
  function PowTen(k: int): (r: real)
    ensures r > 0.0
  {
    if k >= 0 then Pow10(k) as real else 1.0 / Pow10(-k) as real
  }

  /** Each step of the exponent is a factor of ten, on both sides of zero. */
  lemma PowTenStep(k: int)
    ensures PowTen(k + 1) == 10.0 * PowTen(k)
  {
    if k < -1 {
      var a := Pow10(-k - 1) as real;
      assert Pow10(-k) as real == 10.0 * a;
      assert 10.0 * (1.0 / (10.0 * a)) == 1.0 / a;
    }
  }

  /** A number written in decimal: `mantissa / 10^exponent`. */
  datatype Decimal = Decimal(mantissa: int, exponent: nat) {
    function Value(): real {
      mantissa as real / Pow10(exponent) as real
    }
  }

  /** The precisions the model covers, each in its shortest decimal form: whole
      numbers (the `10 ** precision` branch), and numbers strictly between 0
      and 1 that JavaScript prints in plain decimal notation (at least 1e-6),
      whose digits after "0." are read as a multiplier. */
  predicate Representable(d: Decimal) {
    d.exponent == 0 ||
    (0 < d.mantissa < Pow10(d.exponent) && d.mantissa % 10 != 0 &&
     Pow10(d.exponent) <= d.mantissa * 1000000)
  }

  type Precision = d: Decimal | Representable(d) witness Decimal(0, 0)

  /** `String(p)` for 0 < p < 1: "0." followed by the digits, left-padded with zeros. */
  function DecimalText(p: Precision): (s: string)
    requires p.exponent > 0
    ensures |s| >= 2 && s[..2] == "0." && AllDigits(s[2..])
  {
    var digits := NatToString(p.mantissa);
    var pad := if |digits| < p.exponent then p.exponent - |digits| else 0;
    var s := "0." + Zeros(pad) + digits;
    assert s[2..] == Zeros(pad) + digits;
    s
  }

  /** The multiplier of `Inch.round` for a non-zero precision: `10 ** p` when
      p >= 1 or p < 0, otherwise `Number(String(p).slice(2))`. */
  function Multiplier(p: Precision): (m: real)
    requires p.mantissa != 0
    ensures m > 0.0
  {
    // p >= 1 || p < 0, compared on the decimal's integers
    if p.mantissa >= Pow10(p.exponent) || p.mantissa < 0 then PowTen(p.mantissa)
    else
      DigitsValue(p);
      ParseNat(DecimalText(p)[2..]) as real
  }

  /** The digits after "0." denote the mantissa. */
  lemma DigitsValue(p: Precision)
    requires p.exponent > 0
    ensures ParseNat(DecimalText(p)[2..]) == p.mantissa
  {
    var digits := NatToString(p.mantissa);
    var pad := if |digits| < p.exponent then p.exponent - |digits| else 0;
    assert DecimalText(p)[2..] == Zeros(pad) + digits;
    ParseNatLeadingZeros(pad, digits);
    ParseNatToString(p.mantissa);
  }

  /** The multiplier is a power of ten for whole precisions and the integer
      formed by the decimal digits otherwise (0.4 gives 4, 0.125 gives 125). */
  lemma MultiplierIs(p: Precision)
    requires p.mantissa != 0
    ensures p.exponent == 0 ==> Multiplier(p) == PowTen(p.mantissa)
    ensures p.exponent > 0 ==> Multiplier(p) == p.mantissa as real
  {
    if p.exponent > 0 {
      DigitsValue(p);
    }
  }

  /** `Inch.round(value, precision)` */
  function Round(value: real, precision: Option<Precision>): real {
    if precision.Some? && precision.value.mantissa == 0 then Floor(value) as real
    else if precision.None? then JsRound(value) as real
    else RoundScaled(value, Multiplier(precision.value))
  }

  /** The four behaviours of `Inch.round`: precision 0 floors; no precision
      rounds to the nearest integer, halves up; any other precision rounds to
      the nearest multiple of 1 / Multiplier, halves up. */
  lemma RoundCases(value: real, precision: Option<Precision>)
    ensures var r := Round(value, precision);
      (precision.Some? && precision.value.mantissa == 0 ==>
         r == r.Floor as real && r <= value < r + 1.0) &&
      (precision == None ==>
         r == r.Floor as real && r - 0.5 <= value < r + 0.5) &&
      (precision.Some? && precision.value.mantissa != 0 ==>
         Multiplier(precision.value) > 0.0 &&
         NearestOnGrid(r, value, Multiplier(precision.value)))
  {
    if precision.Some? && precision.value.mantissa != 0 {
      RoundScaledOnGrid(value, Multiplier(precision.value));
    }
  }

  /** `Math.round(value * n) / n` */
  function RoundScaled(value: real, n: real): (r: real)
    requires n > 0.0
    ensures r * n == JsRound(value * n) as real
  {
    JsRound(value * n) as real / n
  }

  /** `r` is a multiple of 1/n and the nearest one to `value` (halves upward). */
  predicate NearestOnGrid(r: real, value: real, n: real) {
    r * n == (r * n).Floor as real && r * n - 0.5 <= value * n < r * n + 0.5
  }

  lemma RoundScaledOnGrid(value: real, n: real)
    requires n > 0.0
    ensures NearestOnGrid(RoundScaled(value, n), value, n)
  {
    var r := RoundScaled(value, n);
    var k := JsRound(value * n);
    assert r * n == k as real;
    assert (k as real).Floor == k;
  }

  /** `round(123456789, -3) == 123457000`, the example in the source's documentation. */
  lemma RoundToThousands()
    ensures Round(123456789.0, Some(Decimal(-3, 0))) == 123457000.0
    ensures Round(123456289.0, Some(Decimal(-3, 0))) == 123456000.0
  {
    assert Pow10(3) == 1000;
    assert Multiplier(Decimal(-3, 0)) == 0.001;
    assert JsRound(123456.789) == 123457;
    assert JsRound(123456.289) == 123456;
  }

  /** 0.3 rounds to thirds and 0.4 to quarters. */
  lemma RoundToDigitMultiplier()
    ensures Round(0.55, Some(Decimal(3, 1))) == 2.0 / 3.0
    ensures Round(0.49, Some(Decimal(3, 1))) == 1.0 / 3.0
    ensures Round(0.4, Some(Decimal(4, 1))) == 0.5
  {
    MultiplierIs(Decimal(3, 1));
    MultiplierIs(Decimal(4, 1));
    assert JsRound(0.55 * 3.0) == 2;
    assert JsRound(0.49 * 3.0) == 1;
    assert JsRound(0.4 * 4.0) == 2;
  }

  /** Without a precision halves go up, as `Math.round` does; precision 0 floors. */
  lemma RoundHalves()
    ensures Round(1.5, None) == 2.0 && Round(-1.5, None) == -1.0
    ensures Round(-1.5, Some(Decimal(0, 0))) == -2.0
  {
    assert JsRound(1.5) == 2;
    assert JsRound(-1.5) == -1;
  }

  /** JavaScript `a % b` on integers: the remainder takes the sign of `a`. */
  function JsRem(a: int, b: int): (r: int)
    requires b != 0
    ensures Abs(r) < Abs(b)
    ensures a >= 0 && b > 0 ==> r == a % b
  {
    var m := Abs(a) % Abs(b);
    if a < 0 then -m else m
  }

  function Abs(x: int): nat {
    if x < 0 then -x else x
  }

  /** `Inch.gcd(a, b)`: `b ? gcd(b, a % b) : a`. It terminates for every pair
      of integers because the remainder is smaller in magnitude than `b`, and
      it returns 0 only for gcd(a, 0) with a == 0. */
  function Gcd(a: int, b: int): (g: int)
    ensures b != 0 ==> g != 0
    ensures a >= 0 && b >= 0 ==> g >= 0
    decreases Abs(b)
  {
    if b != 0 then Gcd(b, JsRem(a, b)) else a
  }

  predicate Divides(d: int, n: int) {
    if d == 0 then n == 0 else n % d == 0
  }

  lemma DividesCombination(d: int, x: int, y: int, q: int)
    requires d > 0 && Divides(d, x) && Divides(d, y)
    ensures Divides(d, x * q + y)
  {
    var kx, ky := x / d, y / d;
    assert x == d * kx;
    assert y == d * ky;
    assert x * q + y == d * (kx * q + ky) by {
      assert x * q == d * (kx * q);
    }
    MultipleMod(d, kx * q + ky);
  }

  lemma MultipleMod(d: int, k: int)
    requires d > 0
    ensures (d * k) % d == 0
  {
    var x := d * k;
    var t := k - x / d;
    assert d * t == x % d;
    MulSign(d, t);
  }

  lemma MulSign(d: int, t: int)
    requires d > 0
    ensures t >= 1 ==> d * t >= d
    ensures t <= -1 ==> d * t <= -d
  {
    assert d * t - d == d * (t - 1);
    assert d * t + d == d * (t + 1);
  }

  /** gcd(a, b) divides both arguments. */
  lemma {:induction false} GcdDividesBoth(a: nat, b: nat)
    ensures Divides(Gcd(a, b), a) && Divides(Gcd(a, b), b)
    decreases b
  {
    if b != 0 {
      var r := a % b;
      GcdDividesBoth(b, r);
      var g := Gcd(b, r);
      assert g > 0;
      assert a == b * (a / b) + r;
      DividesCombination(g, b, r, a / b);
    }
  }

  /** Every common divisor of a and b divides gcd(a, b), so it is the greatest one. */
  lemma {:induction false} GcdGreatest(a: nat, b: nat, c: int)
    requires c > 0 && Divides(c, a) && Divides(c, b)
    ensures Divides(c, Gcd(a, b))
    decreases b
  {
    if b != 0 {
      var r := a % b;
      assert r == b * (-(a / b)) + a;
      DividesCombination(c, b, a, -(a / b));
      GcdGreatest(b, r, c);
    }
  }

  lemma GcdZero(a: int)
    ensures Gcd(a, 0) == a
  {
  }
}

/** The few JavaScript string built-ins the conversion relies on, written out:
    number-to-text (`String(n)`, template literals), digit parsing (`Number(s)`
    on a digit string), `split('/')`, `filter(Boolean)` and `join`. */
module JsText {

  predicate IsDigit(c: char) {
    '0' <= c <= '9'
  }

  predicate AllDigits(s: string) {
    forall i :: 0 <= i < |s| ==> IsDigit(s[i])
  }

  function DigitChar(d: nat): (c: char)
    requires d < 10
    ensures IsDigit(c)
  {
    (('0' as int) + d) as char
  }

  function DigitValue(c: char): (d: nat)
    requires IsDigit(c)
    ensures d < 10
  {
    (c as int) - ('0' as int)
  }

  /** Decimal text of a natural number, most significant digit first, no
      leading zeros: what `String(n)` gives for a non-negative integer. */
  function NatToString(n: nat): (s: string)
    ensures |s| >= 1 && AllDigits(s)
    ensures n >= 10 ==> s[0] != '0'
  {
    if n < 10 then [DigitChar(n)] else NatToString(n / 10) + [DigitChar(n % 10)]
  }

  /** `String(i)` for an integer. */
  function IntToString(i: int): (s: string)
    ensures |s| >= 1
    ensures i >= 0 ==> s == NatToString(i)
  {
    if i < 0 then "-" + NatToString(-i) else NatToString(i)
  }

  /** `Number(s)` for a string made of decimal digits. */
  function ParseNat(s: string): nat
    requires AllDigits(s)
  {
    if s == [] then 0 else ParseNat(s[..|s| - 1]) * 10 + DigitValue(s[|s| - 1])
  }

  /** `Number` gives back the integer `String` wrote: the digits after an
      optional minus sign, which appears exactly for a negative integer. */
  lemma IntToStringParses(i: int)
    ensures var s := IntToString(i);
      (s[0] == '-' <==> i < 0) &&
      (i >= 0 ==> AllDigits(s) && ParseNat(s) == i) &&
      (i < 0 ==> AllDigits(s[1..]) && ParseNat(s[1..]) == -i)
  {
    var s := IntToString(i);
    if i < 0 {
      assert s[1..] == NatToString(-i);
      ParseNatToString(-i);
    } else {
      assert IsDigit(s[0]);
      ParseNatToString(i);
    }
  }

  lemma {:induction false} ParseNatToString(n: nat)
    ensures ParseNat(NatToString(n)) == n
  {
    if n >= 10 {
      var s := NatToString(n);
      assert s[..|s| - 1] == NatToString(n / 10);
      ParseNatToString(n / 10);
    }
  }

  function Zeros(k: nat): (s: string)
    ensures |s| == k && AllDigits(s)
    ensures forall i :: 0 <= i < k ==> s[i] == '0'
  {
    if k == 0 then "" else "0" + Zeros(k - 1)
  }

  /** Leading zeros do not change the number a digit string denotes. */
  lemma {:induction false} ParseNatLeadingZeros(k: nat, s: string)
    requires AllDigits(s)
    ensures ParseNat(Zeros(k) + s) == ParseNat(s)
  {
    if s == [] {
      assert Zeros(k) + s == Zeros(k);
      ParseNatZeros(k);
    } else {
      var t := Zeros(k) + s;
      assert t[..|t| - 1] == Zeros(k) + s[..|s| - 1];
      ParseNatLeadingZeros(k, s[..|s| - 1]);
    }
  }

  lemma {:induction false} ParseNatZeros(k: nat)
    ensures ParseNat(Zeros(k)) == 0
  {
    if k > 0 {
      var z := Zeros(k);
      assert z[..k - 1] == Zeros(k - 1);
      ParseNatZeros(k - 1);
    }
  }

  /** `s.split(sep)` for a one-character separator: always at least one piece. */
  function Split(s: string, sep: char): (r: seq<string>)
    ensures |r| >= 1
  {
    if |s| == 0 then [""]
    else if s[0] == sep then [""] + Split(s[1..], sep)
    else
      var rest := Split(s[1..], sep);
      [[s[0]] + rest[0]] + rest[1..]
  }

  lemma {:induction false} SplitNoSeparator(s: string, sep: char)
    requires sep !in s
    ensures Split(s, sep) == [s]
  {
    if |s| > 0 {
      assert sep !in s[1..];
      SplitNoSeparator(s[1..], sep);
      assert [s[0]] + s[1..] == s;
    }
  }

  lemma {:induction false} SplitFirst(a: string, sep: char, b: string)
    requires sep !in a
    ensures Split(a + [sep] + b, sep) == [a] + Split(b, sep)
  {
    if |a| == 0 {
      assert a + [sep] + b == [sep] + b;
      assert ([sep] + b)[1..] == b;
    } else {
      var s := a + [sep] + b;
      assert s[1..] == a[1..] + [sep] + b;
      assert sep !in a[1..];
      SplitFirst(a[1..], sep, b);
      assert [a[0]] + a[1..] == a;
    }
  }

  /** `array.join(sep)` */
  function Join(xs: seq<string>, sep: string): string {
    if |xs| == 0 then ""
    else if |xs| == 1 then xs[0]
    else xs[0] + sep + Join(xs[1..], sep)
  }

  /** `array.filter(Boolean)` on strings: the empty string is falsy. */
  function NonEmpty(xs: seq<string>): (r: seq<string>)
    ensures |r| <= |xs|
    ensures forall i :: 0 <= i < |r| ==> r[i] != ""
    ensures r == [] <==> forall i :: 0 <= i < |xs| ==> xs[i] == ""
  {
    if |xs| == 0 then []
    else if xs[0] == "" then NonEmpty(xs[1..])
    else [xs[0]] + NonEmpty(xs[1..])
  }

  /** Joining non-empty pieces gives the empty string only when there are none. */
  lemma {:induction false} JoinNonEmpty(xs: seq<string>, sep: string)
    requires forall i :: 0 <= i < |xs| ==> xs[i] != ""
    ensures Join(xs, sep) == "" <==> xs == []
  {
    if |xs| >= 1 {
      assert xs[0] != "";
      assert |Join(xs, sep)| >= |xs[0]| by {
        if |xs| >= 2 {
          assert Join(xs, sep) == xs[0] + sep + Join(xs[1..], sep);
        }
      }
    }
  }

  /** Most fractional digits the model prints for a non-integral number. */
  const MaxFractionDigits: nat := 20

  function FractionDigits(f: real, k: nat): string
    requires 0.0 <= f < 1.0
    decreases k
  {
    if f == 0.0 || k == 0 then ""
    else
      var t := f * 10.0;
      [DigitChar(t.Floor)] + FractionDigits(t - t.Floor as real, k - 1)
  }

  /** `String(x)` for a number: a whole number below 1e21 in magnitude exactly
      as JavaScript prints it, and any other value written out positionally
      (JavaScript switches to exponent form from 1e21 on, and for non-whole
      values below 1e-6); the fractional digits stop after `MaxFractionDigits`. */
  function NumberToString(x: real): (s: string)
    ensures x == x.Floor as real ==> s == IntToString(x.Floor)
  {
    if x == x.Floor as real then IntToString(x.Floor)
    else PointedString(x < 0.0, if x < 0.0 then -x else x)
  }

  /** The decimal expansion of a number of magnitude `a`: a minus sign when
      `negative`, the whole part, a point and at most `MaxFractionDigits`
      fractional digits. */
  function PointedString(negative: bool, a: real): string
    requires a >= 0.0
  {
    (if negative then "-" else "") + NatToString(a.Floor) + "." + FractionDigits(a - a.Floor as real, MaxFractionDigits)
  }

  /** Text made of what number and fraction texts are written with: digits,
      '-', '.' and '/'. */
  predicate NumberText(s: string) {
    forall i :: 0 <= i < |s| ==> IsDigit(s[i]) || s[i] == '-' || s[i] == '.' || s[i] == '/'
  }

  lemma NumberTextJoin(a: string, b: string)
    requires NumberText(a) && NumberText(b)
    ensures NumberText(a + b)
  {
    assert forall i :: 0 <= i < |a + b| ==> (a + b)[i] == if i < |a| then a[i] else b[i - |a|];
  }

  lemma {:induction false} FractionDigitsText(f: real, k: nat)
    requires 0.0 <= f < 1.0
    ensures AllDigits(FractionDigits(f, k))
    decreases k
  {
    if f != 0.0 && k != 0 {
      var t := f * 10.0;
      FractionDigitsText(t - t.Floor as real, k - 1);
      var rest := FractionDigits(t - t.Floor as real, k - 1);
      assert forall i :: 0 < i < |[DigitChar(t.Floor)] + rest| ==> ([DigitChar(t.Floor)] + rest)[i] == rest[i - 1];
    }
  }

  lemma DigitsText(s: string)
    requires AllDigits(s)
    ensures NumberText(s)
  {
  }

  /** `String(x)` is written with digits, '-' and '.' only. */
  lemma NumberToStringText(x: real)
    ensures NumberText(NumberToString(x)) && NumberToString(x) != ""
  {
    if x == x.Floor as real {
      IntText(x.Floor);
    } else {
      PointedStringText(x < 0.0, if x < 0.0 then -x else x);
    }
  }

  /** A sign, whole digits, a point and fractional digits make number text. */
  lemma PointedStringText(negative: bool, a: real)
    requires a >= 0.0
    ensures NumberText(PointedString(negative, a)) && PointedString(negative, a) != ""
  {
    var sign := if negative then "-" else "";
    var whole := NatToString(a.Floor);
    var digits := FractionDigits(a - a.Floor as real, MaxFractionDigits);
    FractionDigitsText(a - a.Floor as real, MaxFractionDigits);
    SignText(negative);
    DigitsText(digits);
    DigitsText(whole);
    NumberTextJoin(sign, whole);
    NumberTextJoin(sign + whole, ".");
    NumberTextJoin(sign + whole + ".", digits);
    assert |sign + whole + "." + digits| > 0;
  }

  /** The sign is number text. */
  lemma SignText(negative: bool)
    ensures NumberText(if negative then "-" else "")
  {
    var sign := if negative then "-" else "";
    forall i | 0 <= i < |sign|
      ensures IsDigit(sign[i]) || sign[i] == '-' || sign[i] == '.' || sign[i] == '/'
    {
      assert sign[i] == '-';
    }
  }

  /** A minus sign in front keeps number text. */
  lemma SignedText(b: string)
    requires NumberText(b)
    ensures NumberText("-" + b)
  {
    SignText(true);
    NumberTextJoin("-", b);
  }

  lemma IntText(n: int)
    ensures NumberText(IntToString(n)) && IntToString(n) != ""
  {
    if n < 0 {
      assert IntToString(n) == "-" + NatToString(-n);
      DigitsText(NatToString(-n));
      SignedText(NatToString(-n));
    } else {
      DigitsText(NatToString(n));
    }
  }

}

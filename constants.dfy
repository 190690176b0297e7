/** The constant tables: the unit order, the input multipliers (millimetres
    per input unit), the inch divisors of the four units and the default
    options. */
module Constants {
  import opened Wrappers
  import opened Rounding
  import opened Interfaces

  /** `Order`: largest unit first. */
  const Order: seq<Unit> := [Miles, Yards, Feet, Inches]

  /** Position of a unit in `Order`. */
  function Rank(u: Unit): (k: nat)
    ensures k < |Order| && Order[k] == u
  {
    match u
    case Miles => 0
    case Yards => 1
    case Feet => 2
    case Inches => 3
  }

  /** `InputMultiplayer`: millimetres in one input unit. */
  function InputMultiplier(u: InputUnit): real {
    match u
    case Mm => 1.0
    case Cm => 10.0
    case M => 1000.0
    case Km => 1000000.0
    case In => 25.4
    case Ft => 304.8
    case Yd => 914.4
    case Mi => 1609344.0
  }

  /** `RawDividers`: inches in one unit. */
  function RawDivider(u: Unit): nat {
    match u
    case Miles => 63360
    case Yards => 36
    case Feet => 12
    case Inches => 1
  }

  /** Millimetres per inch, the divisor of the conversion. */
  const MmPerInch: real := 25.4

  /** `RawDividers` strictly decreases along `Order`, and each divisor is a
      whole multiple of the next smaller one (1760 yards, 3 feet, 12 inches). */
  lemma DividersDescend()
    ensures forall i, j :: 0 <= i < j < |Order| ==> RawDivider(Order[i]) > RawDivider(Order[j])
    ensures forall i :: 0 <= i < |Order| - 1 ==> RawDivider(Order[i]) % RawDivider(Order[i + 1]) == 0
    ensures RawDivider(Miles) == 1760 * RawDivider(Yards)
    ensures RawDivider(Yards) == 3 * RawDivider(Feet)
    ensures RawDivider(Feet) == 12 * RawDivider(Inches)
    ensures RawDivider(Order[|Order| - 1]) == 1
  {
  }

  /** The imperial input multipliers are 25.4 mm times the unit's divisor, so
      they agree with the millimetre divisors used for `precise`. */
  lemma ImperialMultipliersMatchDividers()
    ensures InputMultiplier(In) == MmPerInch * RawDivider(Inches) as real
    ensures InputMultiplier(Ft) == MmPerInch * RawDivider(Feet) as real
    ensures InputMultiplier(Yd) == MmPerInch * RawDivider(Yards) as real
    ensures InputMultiplier(Mi) == MmPerInch * RawDivider(Miles) as real
  {
  }

  /** The default item template of `toString()`: the value, then the
      fraction (after a space when there is a value), then a space and the title.
      It is written out piece by piece, one placeholder or piece of text at a time. */
  const TextItem: string :=
    "{{value}}" + "{{fraction?" + "{{value? :}}" + "{{fraction}}" + ":}}" + "{{title?" + " " + "{{title}}" + ":}}"

  /** `DefaultOptions` */
  const DefaultOptions: Options := Options(
    16,
    Mm,
    Some("fraction"),
    UnitOptions(true, Bool(false), Some("mi"), Some("mi")),
    UnitOptions(true, Bool(false), Some("yd"), Some("yd")),
    UnitOptions(true, Bool(false), Some("ft"), Some("ft")),
    UnitOptions(true, Fraction, Some("in"), Some("in")),
    Templates(
      TemplateSet(TextItem, None, Some("-"), Some(" ")),
      TemplateSet(["{{value}}", "{{fraction}}", "{{title}}"], None, Some("-"), None),
      TemplateSet("<span{{class? class=\"{{class}}\":}}>{{value}}{{fraction?{{value? :}}{{fraction}}:}}{{title? {{title}}:}}</span>",
        Some("<span{{fractionClass? class=\"{{fractionClass}}\":}}><sup>{{numerator}}</sup>&frasl;<sub>{{denominator}}</sub></span>"),
        Some("&minus;"), Some(" "))))

  /** In the defaults every unit is enabled, only inches has a truthy fraction
      option (exactly 'fraction'), and the denominator is 16. */
  lemma DefaultOptionsShape()
    ensures forall u :: DefaultOptions.Unit(u).enabled
    ensures forall u :: Truthy(DefaultOptions.Unit(u).fraction) <==> u == Inches
    ensures DefaultOptions.Unit(Inches).fraction == Fraction
    ensures DefaultOptions.denominator == 16
  {
  }
}

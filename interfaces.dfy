/** The data shapes the conversion works on: units, per-unit options, the
    template variants, the computation result and the per-unit render info. */
module Interfaces {
  import opened Wrappers
  import opened Rounding

  /** `keyof Length`: the four imperial units, largest first. */
  datatype Unit = Miles | Yards | Feet | Inches

  /** The unit's key as the source spells it ('miles', ...). */
  function KeyName(u: Unit): string {
    match u
    case Miles => "miles"
    case Yards => "yards"
    case Feet => "feet"
    case Inches => "inches"
  }

  /** `FractionValue = boolean | number | 'fraction'` */
  datatype FractionValue = Bool(b: bool) | Number(precision: Precision) | Fraction

  /** JavaScript truthiness of a fraction option: `false` and `0` are falsy. */
  predicate Truthy(f: FractionValue) {
    match f
    case Bool(b) => b
    case Number(p) => p.mantissa != 0
    case Fraction => true
  }

  /** `Length`: one number per unit. */
  datatype Length = Length(miles: real, yards: real, feet: real, inches: real) {
    function Get(u: Unit): real {
      match u
      case Miles => miles
      case Yards => yards
      case Feet => feet
      case Inches => inches
    }

    function Set(u: Unit, v: real): (r: Length)
      ensures r.Get(u) == v
      ensures forall w :: w != u ==> r.Get(w) == Get(w)
    {
      match u
      case Miles => this.(miles := v)
      case Yards => this.(yards := v)
      case Feet => this.(feet := v)
      case Inches => this.(inches := v)
    }
  }

  const ZeroLength := Length(0.0, 0.0, 0.0, 0.0)

  /** One entry of `Sizes`: a unit and a number (first its divisor, later its allocation). */
  datatype Size = Size(key: Unit, value: real)

  /** The four options the source keeps per unit: `miles`, `milesFraction`,
      `milesTitle`, `milesClass` (and likewise for the other units); `null`
      is `None`. */
  datatype UnitOptions = UnitOptions(enabled: bool, fraction: FractionValue, title: Option<string>, className: Option<string>)

  /** One template variant: `{ itemTemplate, fractionTemplate?, minus?, joiner? }`. */
  datatype TemplateSet<T> = TemplateSet(itemTemplate: T, fractionTemplate: Option<string>, minus: Option<string>, joiner: Option<string>)

  /** `templates.string`, `templates.parts` and `templates.html`; the first is
      called `text` here because `string` is a type name in Dafny. */
  datatype Templates = Templates(text: TemplateSet<string>, parts: TemplateSet<seq<string>>, html: TemplateSet<string>)

  /** `options.input`: the unit the magnitude is given in. */
  datatype InputUnit = Mm | Cm | M | Km | In | Ft | Yd | Mi

  /** The fraction denominator: a positive integer. */
  type Denominator = d: int | d > 0 witness 16

  /** `Options`: the effective configuration of one conversion. */
  datatype Options = Options(
    denominator: Denominator,
    input: InputUnit,
    fractionClass: Option<string>,
    miles: UnitOptions,
    yards: UnitOptions,
    feet: UnitOptions,
    inches: UnitOptions,
    templates: Templates)
  {
    function Unit(u: Unit): UnitOptions {
      match u
      case Miles => miles
      case Yards => yards
      case Feet => feet
      case Inches => inches
    }
  }

  /** The caller's partial configuration: a missing field is `None`. For the
      fields whose value may be `null`, `Some(None)` is an explicit `null`. */
  datatype PartialUnit = PartialUnit(enabled: Option<bool>, fraction: Option<FractionValue>, title: Option<Option<string>>, className: Option<Option<string>>)

  datatype PartialTemplateSet<T> = PartialTemplateSet(itemTemplate: Option<T>, fractionTemplate: Option<string>, minus: Option<string>, joiner: Option<string>)

  datatype PartialTemplates = PartialTemplates(text: PartialTemplateSet<string>, parts: PartialTemplateSet<seq<string>>, html: PartialTemplateSet<string>)

  datatype OptionParams = OptionParams(
    denominator: Option<Denominator>,
    input: Option<InputUnit>,
    fractionClass: Option<Option<string>>,
    miles: PartialUnit,
    yards: PartialUnit,
    feet: PartialUnit,
    inches: PartialUnit,
    templates: PartialTemplates)

  const NoUnitParams := PartialUnit(None, None, None, None)

  /** `{}`: no option given. */
  const NoParams := OptionParams(None, None, None, NoUnitParams, NoUnitParams, NoUnitParams, NoUnitParams,
    PartialTemplates(PartialTemplateSet(None, None, None, None), PartialTemplateSet(None, None, None, None), PartialTemplateSet(None, None, None, None)))

  /** `Calculated`: the result of one decomposition. */
  datatype Calculated = Calculated(precise: Length, accurate: Length, reminders: Length, fraction: string, sizes: seq<Size>)

  /** `KeyInfo & { required?: true }`: what the renderer knows about one unit. */
  datatype KeyInfo = KeyInfo(
    key: Unit,
    index: int,
    isLast: bool,
    hasFraction: bool,
    value: real,
    title: Option<string>,
    className: Option<string>,
    fraction: FractionValue,
    required: bool)

  /** One record of `ItemsData`: `{ type: 'sign', value: '-' }` or
      `{ type, value, fraction? }` (`type` is spelled `kind` here). */
  datatype ItemData = Sign | Item(kind: string, value: real, fraction: Option<string>)
}

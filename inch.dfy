/** Class `Inch`: the constructor (option merge, input scaling, sign and
    decomposition), `#render` and the views built on it: `toString`, `html`,
    `parts` and `items`. An `Inch` never changes after its constructor
    returns, so it is modelled as a value. */
module Inches {
  import opened Wrappers
  import opened JsText
  import opened Interfaces
  import opened Constants
  import opened Rounding
  import opened Fractions
  import opened Decomposition
  import Template
  import Substitution

  // ---------------------------------------------------------------------
  // The option merge of the constructor

  /** `{ ...below, ...top }` for one optional field: a given field wins. */
  function Over<T>(top: Option<T>, below: Option<T>): Option<T> {
    if top.Some? then top else below
  }

  /** The caller's options of one unit over the current ones. */
  function MergeUnit(d: UnitOptions, p: PartialUnit): UnitOptions {
    UnitOptions(p.enabled.GetOr(d.enabled), p.fraction.GetOr(d.fraction),
      p.title.GetOr(d.title), p.className.GetOr(d.className))
  }

  /** `{ ...this.#options.templates[type], ...options?.templates?.[type] }` */
  function MergeSet<T>(d: TemplateSet<T>, p: PartialTemplateSet<T>): TemplateSet<T> {
    TemplateSet(p.itemTemplate.GetOr(d.itemTemplate), Over(p.fractionTemplate, d.fractionTemplate),
      Over(p.minus, d.minus), Over(p.joiner, d.joiner))
  }

  /** The merged `#options`: a shallow spread of the caller's options over the
      current ones, then one spread per template set. */
  function Merge(d: Options, p: OptionParams): Options {
    Options(p.denominator.GetOr(d.denominator), p.input.GetOr(d.input), p.fractionClass.GetOr(d.fractionClass),
      MergeUnit(d.miles, p.miles), MergeUnit(d.yards, p.yards), MergeUnit(d.feet, p.feet), MergeUnit(d.inches, p.inches),
      Templates(MergeSet(d.templates.text, p.templates.text), MergeSet(d.templates.parts, p.templates.parts),
        MergeSet(d.templates.html, p.templates.html)))
  }

  /** The caller's options of one unit. */
  function UnitParams(p: OptionParams, u: Unit): PartialUnit {
    match u
    case Miles => p.miles
    case Yards => p.yards
    case Feet => p.feet
    case Inches => p.inches
  }

  function LayerUnit(p: PartialUnit, q: PartialUnit): PartialUnit {
    PartialUnit(Over(q.enabled, p.enabled), Over(q.fraction, p.fraction), Over(q.title, p.title), Over(q.className, p.className))
  }

  function LayerSet<T>(p: PartialTemplateSet<T>, q: PartialTemplateSet<T>): PartialTemplateSet<T> {
    PartialTemplateSet(Over(q.itemTemplate, p.itemTemplate), Over(q.fractionTemplate, p.fractionTemplate),
      Over(q.minus, p.minus), Over(q.joiner, p.joiner))
  }

  /** `q` given on top of `p`: every field `q` gives, and the others from `p`. */
  function Layer(p: OptionParams, q: OptionParams): OptionParams {
    OptionParams(Over(q.denominator, p.denominator), Over(q.input, p.input), Over(q.fractionClass, p.fractionClass),
      LayerUnit(p.miles, q.miles), LayerUnit(p.yards, q.yards), LayerUnit(p.feet, q.feet), LayerUnit(p.inches, q.inches),
      PartialTemplates(LayerSet(p.templates.text, q.templates.text), LayerSet(p.templates.parts, q.templates.parts),
        LayerSet(p.templates.html, q.templates.html)))
  }

  /** With no options the defaults are kept as they are. */
  /** A spread over a spread is one spread of the later field over the
      earlier; spreading nothing, or the same field twice, changes nothing. */
  lemma OverLayers<T>(d: Option<T>, p: Option<T>, q: Option<T>)
    ensures Over(q, Over(p, d)) == Over(Over(q, p), d)
    ensures Over(None, d) == d && Over(p, Over(p, d)) == Over(p, d)
  {
  }

  /** The same for the options of one unit. */
  lemma MergeUnitLayers(d: UnitOptions, p: PartialUnit, q: PartialUnit)
    ensures MergeUnit(MergeUnit(d, p), q) == MergeUnit(d, LayerUnit(p, q))
    ensures MergeUnit(d, NoUnitParams) == d
  {
  }

  /** The same for one template set. */
  lemma MergeSetLayers<T>(d: TemplateSet<T>, p: PartialTemplateSet<T>, q: PartialTemplateSet<T>)
    ensures MergeSet(MergeSet(d, p), q) == MergeSet(d, LayerSet(p, q))
    ensures MergeSet(d, PartialTemplateSet(None, None, None, None)) == d
  {
  }

  lemma MergeNothing(d: Options)
    ensures Merge(d, NoParams) == d
  {
  }

  /** Merging twice is merging once with the later options over the earlier. */
  lemma MergeTwice(d: Options, p: OptionParams, q: OptionParams)
    ensures Merge(Merge(d, p), q) == Merge(d, Layer(p, q))
  {
  }

  /** Merging the same options again changes nothing. */
  lemma MergeIdempotent(d: Options, p: OptionParams)
    ensures Merge(Merge(d, p), p) == Merge(d, p)
  {
    MergeTwice(d, p, p);
    assert Layer(p, p) == p;
  }

  /** A unit's merged options depend only on that unit's given options, and a
      unit the caller says nothing about keeps its current options. */
  lemma MergePerUnit(d: Options, p: OptionParams, u: Unit)
    ensures Merge(d, p).Unit(u) == MergeUnit(d.Unit(u), UnitParams(p, u))
    ensures UnitParams(p, u) == NoUnitParams ==> Merge(d, p).Unit(u) == d.Unit(u)
  {
  }

  /** A template set is merged field by field: giving one field of it keeps
      the current values of the others. */
  lemma MergeTemplateFields(d: Options, p: OptionParams)
    ensures var t := Merge(d, p).templates.html;
      (p.templates.html.itemTemplate.None? ==> t.itemTemplate == d.templates.html.itemTemplate) &&
      (p.templates.html.fractionTemplate.None? ==> t.fractionTemplate == d.templates.html.fractionTemplate) &&
      (p.templates.html.minus.None? ==> t.minus == d.templates.html.minus) &&
      (p.templates.html.joiner.None? ==> t.joiner == d.templates.html.joiner)
    ensures var t := Merge(d, p).templates.text;
      (p.templates.text.itemTemplate.None? ==> t.itemTemplate == d.templates.text.itemTemplate) &&
      (p.templates.text.minus.None? ==> t.minus == d.templates.text.minus)
  {
  }

  // ---------------------------------------------------------------------
  // The constructor

  /** An `Inch` after its constructor: the merged options, `#mm` (in
      millimetres), `minus` and `#calculated`. `this[key]` is
      `calculated.accurate` and `this.fraction` is `calculated.fraction`. */
  datatype Inch = Inch(options: Options, mm: real, minus: bool, calculated: Calculated) {
    /** The shape every constructed `Inch` has: at least one retained unit,
        in the order of `Order`, and a fraction text made of digits and '/'. */
    predicate Valid() {
      calculated.sizes != [] && Ascending(calculated.sizes) && NumberText(calculated.fraction)
    }

    /** `this.#getInfo(key)` */
    function Info(key: Unit): Option<KeyInfo> {
      GetInfo(key, calculated.sizes, options, calculated.accurate, calculated.fraction)
    }

    /** `this.#getMinimal()`, which cannot throw on a constructed `Inch`. */
    function Minimal(): (m: KeyInfo)
      requires Valid()
      ensures m.key == calculated.sizes[|calculated.sizes| - 1].key && m.isLast && !m.required
    {
      MinimalIsLast(calculated.sizes, options, calculated.accurate, calculated.fraction);
      GetMinimal(calculated.sizes, options, calculated.accurate, calculated.fraction).value
    }
  }

  /** `mm *= InputMultiplayer[input]`: the magnitude in millimetres. */
  function Scaled(mm: real, input: InputUnit): real {
    mm * InputMultiplier(input)
  }

  /** `new Inch(mm, options)`: an absent `mm` is 0; the magnitude is scaled to
      millimetres by the input unit's multiplier; the sign is that of the
      scaled magnitude; `#calculate` may throw. */
  function InchOf(mm: Option<real>, params: OptionParams): Result<Inch, string> {
    var options := Merge(DefaultOptions, params);
    var scaled := Scaled(mm.GetOr(0.0), options.input);
    match CalculateSpec(scaled, options)
    case Failure(e) => Failure(e)
    case Success(c) => Success(Inch(options, scaled, scaled < 0.0, c))
  }

  /** The constructor. */
  method NewInch(mm: Option<real>, params: OptionParams) returns (r: Result<Inch, string>)
    ensures r == InchOf(mm, params)
  {
    var options := Merge(DefaultOptions, params);
    var m := mm.GetOr(0.0);
    m := Scaled(m, options.input);
    var minus := m < 0.0;
    var calculated := Calculate(m, options);
    if calculated.Failure? {
      return Failure(calculated.error);
    }
    return Success(Inch(options, m, minus, calculated.value));
  }

  /** The keys of the returned sizes are the retained units, so they are ascending. */
  lemma AscendingKeys(a: seq<Size>, b: seq<Size>)
    requires Keys(a) == Keys(b) && Ascending(a)
    ensures Ascending(b)
  {
    forall i, j | 0 <= i < j < |b| ensures Rank(b[i].key) < Rank(b[j].key) {
      assert Keys(b)[i] == b[i].key && Keys(a)[i] == a[i].key;
      assert Keys(b)[j] == b[j].key && Keys(a)[j] == a[j].key;
    }
  }

  /** The constructor throws exactly when `#calculate` does: when no unit is
      enabled before the first truthy fraction option. Otherwise the result
      is valid, holds the merged options, the scaled magnitude and its sign. */
  lemma Constructed(mm: Option<real>, params: OptionParams)
    ensures var options := Merge(DefaultOptions, params);
      InchOf(mm, params).Failure? <==> Retained(options) == []
    ensures InchOf(mm, params).Failure? ==> InchOf(mm, params).error == NoMinimal
    ensures InchOf(mm, params).Success? ==>
      var inch := InchOf(mm, params).value;
      var scaled := Scaled(mm.GetOr(0.0), inch.options.input);
      inch.Valid() && inch.options == Merge(DefaultOptions, params) && inch.mm == scaled &&
      (inch.minus <==> scaled < 0.0) && Keys(inch.calculated.sizes) == Keys(Retained(inch.options))
  {
    var options := Merge(DefaultOptions, params);
    var scaled := Scaled(mm.GetOr(0.0), options.input);
    CalculateFails(scaled, options);
    if CalculateSpec(scaled, options).Success? {
      CalculateSizes(scaled, options);
      CalculateFractionIsText(scaled, options);
      RetainedShape(options);
      AscendingKeys(Retained(options), CalculateSpec(scaled, options).value.sizes);
    }
  }

  /** The fraction text of `#calculate` is written with digits and '/'. */
  lemma CalculateFractionIsText(mm: real, options: Options)
    requires CalculateSpec(mm, options).Success?
    ensures NumberText(CalculateSpec(mm, options).value.fraction)
  {
    var sizes := Retained(options);
    var s := Allocate(sizes, 0, options, Start(mm));
    var minimal := GetMinimal(sizes, options, ZeroLength, "").value;
    CalculateFractionText(s.reminders.Get(minimal.key), options.denominator);
  }

  /** The sign is that of the given magnitude: every input multiplier is positive. */
  lemma ScaledSign(mm: real, input: InputUnit)
    ensures Scaled(mm, input) < 0.0 <==> mm < 0.0
    ensures Scaled(mm, input) == 0.0 <==> mm == 0.0
  {
    var k := InputMultiplier(input);
    assert k > 0.0;
    if mm < 0.0 {
      assert mm * k < 0.0;
    } else if mm > 0.0 {
      assert mm * k > 0.0;
    }
  }

  /** A zero magnitude allocates nothing: every count and every remainder
      is zero and there is no fraction text. */
  lemma ZeroCalculated(options: Options)
    requires CalculateSpec(0.0, options).Success?
    ensures var c := CalculateSpec(0.0, options).value;
      c.accurate == ZeroLength && c.reminders == ZeroLength && c.fraction == ""
  {
    var sizes, s := Retained(options), Start(0.0);
    assert s.raw == 0.0;
    assert Allocate(sizes, 0, options, s) == s;
    assert GetMinimal(sizes, options, ZeroLength, "").Some?;
    var minimal := GetMinimal(sizes, options, ZeroLength, "").value;
    assert s.reminders.Get(minimal.key) == 0.0;
    ZeroFraction(options.denominator);
    CalculateSpecIs(0.0, options, sizes, s, minimal, "");
  }

  /** Without a magnitude (or with 0) the value is positive zero in every unit. */
  lemma ZeroMagnitude(mm: Option<real>, params: OptionParams)
    requires mm.GetOr(0.0) == 0.0 && InchOf(mm, params).Success?
    ensures var inch := InchOf(mm, params).value;
      !inch.minus && inch.calculated.accurate == ZeroLength && inch.calculated.reminders == ZeroLength &&
      inch.calculated.fraction == ""
  {
    var options := Merge(DefaultOptions, params);
    ScaledSign(0.0, options.input);
    ZeroCalculated(options);
  }

  // ---------------------------------------------------------------------
  // #render

  /** The minus sign the render context offers as `{{minus}}`. */
  const MinusSign := "\U{2212}"

  /** The visibility rule of `#render`: a unit is drawn when its value is
      non-zero, when it shows a non-empty fraction, or when it is required. */
  predicate Shown(inch: Inch, info: KeyInfo) {
    info.value != 0.0 || (info.hasFraction && inch.calculated.fraction != "") || info.required
  }

  /** The context before `context.fraction` is filled in; `denominator` is
      absent when `this.fraction` has no '/'. */
  function BaseContext(inch: Inch, info: KeyInfo): Template.Context {
    var pieces := Split(inch.calculated.fraction, '/');
    var ctx := map[
      "minus" := Template.Text(if inch.minus then MinusSign else ""),
      "value" := if info.required || info.value != 0.0 then Template.Num(info.value) else Template.Text(""),
      "title" := Template.Text(info.title.GetOr("")),
      "class" := Template.Text(info.className.GetOr("")),
      "fractionClass" := Template.Text(inch.options.fractionClass.GetOr("")),
      "numerator" := Template.Text(pieces[0]),
      "fraction" := Template.Text("")];
    if |pieces| > 1 then ctx["denominator" := Template.Text(pieces[1])] else ctx
  }

  /** `context.fraction` of a unit that shows the fraction: a non-empty
      fraction template expanded over the context with `fraction` set to
      `this.fraction`, otherwise `this.fraction` itself. */
  function ShownFraction(inch: Inch, ctx: Template.Context, fractionTemplate: Option<string>): string {
    if fractionTemplate.Some? && fractionTemplate.value != "" then
      Template.Expand(fractionTemplate.value, ctx["fraction" := Template.Text(inch.calculated.fraction)], Template.MaxPasses)
    else inch.calculated.fraction
  }

  /** The context `#render` expands the item template over. */
  function RenderContext(inch: Inch, info: KeyInfo, fractionTemplate: Option<string>): Template.Context {
    var ctx := BaseContext(inch, info);
    if info.hasFraction then ctx["fraction" := Template.Text(ShownFraction(inch, ctx, fractionTemplate))] else ctx
  }

  /** `#render(info, itemTemplate, fractionTemplate)` for a string template. */
  function RenderText(inch: Inch, info: Option<KeyInfo>, itemTemplate: string, fractionTemplate: Option<string>): string {
    if info.None? || !Shown(inch, info.value) then ""
    else Template.Expand(itemTemplate, RenderContext(inch, info.value, fractionTemplate), Template.MaxPasses)
  }

  /** `templates.map(template => this.#processTemplate(template, context))` */
  function ExpandAll(templates: seq<string>, ctx: Template.Context): (r: seq<string>)
    ensures |r| == |templates|
    ensures forall k :: 0 <= k < |templates| ==> r[k] == Template.Expand(templates[k], ctx, Template.MaxPasses)
  {
    if templates == [] then []
    else [Template.Expand(templates[0], ctx, Template.MaxPasses)] + ExpandAll(templates[1..], ctx)
  }

  /** `#render(info, itemTemplate, fractionTemplate)` for an array template. */
  function RenderArray(inch: Inch, info: Option<KeyInfo>, itemTemplate: seq<string>, fractionTemplate: Option<string>): seq<string> {
    if info.None? || !Shown(inch, info.value) then []
    else ExpandAll(itemTemplate, RenderContext(inch, info.value, fractionTemplate))
  }

  /** `{ ...this.#getMinimal(), required: true }` */
  function Required(inch: Inch): (info: KeyInfo)
    requires inch.Valid()
    ensures info.required && info.key == inch.Minimal().key
  {
    inch.Minimal().(required := true)
  }

  /** Number and fraction texts hold nothing a template pattern reacts to. */
  lemma NumberTextPlain(s: string)
    requires NumberText(s)
    ensures Template.PlainTruthy(s) && Substitution.NoBrace(s) && Template.Plain(s)
  {
  }

  /** What the context of `#render` offers: the value (shown even when it is
      0 for a required unit), the title, the class, the minus sign and the
      fraction text of a unit that shows the fraction; `value` is truthy
      exactly for a non-zero value, and the text entries exactly when they
      are non-empty. */
  lemma ContextValues(inch: Inch, info: KeyInfo, fractionTemplate: Option<string>)
    ensures var ctx := RenderContext(inch, info, fractionTemplate);
      (Template.Show(ctx, "value") == if info.required || info.value != 0.0 then NumberToString(info.value) else "") &&
      (Template.Truthy(ctx, "value") <==> info.value != 0.0) &&
      Template.Show(ctx, "title") == info.title.GetOr("") &&
      (Template.Truthy(ctx, "title") <==> info.title.GetOr("") != "") &&
      Template.Show(ctx, "class") == info.className.GetOr("") &&
      (Template.Show(ctx, "minus") == if inch.minus then MinusSign else "") &&
      (Template.Show(ctx, "fraction") ==
        if info.hasFraction then ShownFraction(inch, BaseContext(inch, info), fractionTemplate) else "") &&
      (Template.Truthy(ctx, "fraction") <==> Template.Show(ctx, "fraction") != "")
  {
    var base := BaseContext(inch, info);
    var ctx := RenderContext(inch, info, fractionTemplate);
    BaseEntries(inch, info);
    ContextKeysDistinct();
    var f := if info.hasFraction then ShownFraction(inch, base, fractionTemplate) else "";
    assert "value" in ctx && ctx["value"] == base["value"];
    assert "title" in ctx && ctx["title"] == base["title"];
    assert "class" in ctx && ctx["class"] == base["class"];
    assert "minus" in ctx && ctx["minus"] == base["minus"];
    assert "fraction" in ctx && ctx["fraction"] == Template.Text(f);
  }

  /** The render context's keys are different strings. */
  lemma ContextKeysDistinct()
    ensures "value" != "minus" && "value" != "title" && "value" != "class" && "value" != "fractionClass"
    ensures "value" != "numerator" && "value" != "fraction" && "value" != "denominator"
    ensures "title" != "minus" && "title" != "class" && "title" != "fractionClass" && "title" != "numerator"
    ensures "title" != "fraction" && "title" != "denominator"
    ensures "class" != "minus" && "class" != "fractionClass" && "class" != "numerator"
    ensures "class" != "fraction" && "class" != "denominator"
    ensures "minus" != "fractionClass" && "minus" != "numerator" && "minus" != "fraction" && "minus" != "denominator"
    ensures "fraction" != "denominator"
  {
    assert "value"[0] == 'v' && "title"[0] == 't' && "class"[0] == 'c' && "minus"[0] == 'm';
    assert |"fraction"| == 8 && |"denominator"| == 11 && |"numerator"| == 9 && |"fractionClass"| == 13;
  }

  /** The entries of the context before `context.fraction` is filled in. */
  lemma BaseEntries(inch: Inch, info: KeyInfo)
    ensures var base := BaseContext(inch, info);
      "value" in base && base["value"] ==
        (if info.required || info.value != 0.0 then Template.Num(info.value) else Template.Text("")) &&
      "title" in base && base["title"] == Template.Text(info.title.GetOr("")) &&
      "class" in base && base["class"] == Template.Text(info.className.GetOr("")) &&
      "minus" in base && base["minus"] == Template.Text(if inch.minus then MinusSign else "") &&
      "fraction" in base && base["fraction"] == Template.Text("")
  {
    ContextKeysDistinct();
    var base := BaseContext(inch, info);
    var pieces := Split(inch.calculated.fraction, '/');
    var m := map[
      "minus" := Template.Text(if inch.minus then MinusSign else ""),
      "value" := if info.required || info.value != 0.0 then Template.Num(info.value) else Template.Text(""),
      "title" := Template.Text(info.title.GetOr("")),
      "class" := Template.Text(info.className.GetOr("")),
      "fractionClass" := Template.Text(inch.options.fractionClass.GetOr("")),
      "numerator" := Template.Text(pieces[0]),
      "fraction" := Template.Text("")];
    assert base == if |pieces| > 1 then m["denominator" := Template.Text(pieces[1])] else m;
    assert "value" in m && "title" in m && "class" in m && "minus" in m && "fraction" in m;
  }

  /** The render context holds only the eight keys of the object literal. */
  lemma ContextKeys(inch: Inch, info: KeyInfo, fractionTemplate: Option<string>)
    ensures RenderContext(inch, info, fractionTemplate).Keys <=
      {"minus", "value", "title", "class", "fractionClass", "numerator", "fraction", "denominator"}
  {
  }

  /** The render context is a plain object, so the names it inherits from
      `Object.prototype` still substitute: `{{constructor}}` prints the
      `Object` function, `{{__proto__}}` prints "[object Object]", and
      `{{toString?a:b}}` takes the truthy branch. */
  lemma InheritedInContext(inch: Inch, info: KeyInfo, fractionTemplate: Option<string>)
    ensures var ctx := RenderContext(inch, info, fractionTemplate);
      Template.Expand(Template.Placeholder("constructor"), ctx, Template.MaxPasses) == Template.NativeFunction("Object") &&
      Template.Expand(Template.Placeholder("__proto__"), ctx, Template.MaxPasses) == "[object Object]" &&
      Template.Expand(Template.Conditioned("toString", "a", "b"), ctx, Template.MaxPasses) == "a"
  {
    var ctx := RenderContext(inch, info, fractionTemplate);
    ContextKeys(inch, info, fractionTemplate);
    assert |"constructor"| == 11 && "constructor"[0] == 'c' && "constructor"[1] == 'o';
    assert |"__proto__"| == 9 && "__proto__"[0] == '_';
    assert |"toString"| == 8 && "toString"[0] == 't';
    assert "denominator"[0] == 'd' && "numerator"[0] == 'n' && "fraction"[0] == 'f' && "class"[1] == 'l';
    assert "constructor" !in ctx && "__proto__" !in ctx && "toString" !in ctx;
    Template.InheritedSubstitution(ctx, Template.MaxPasses);
  }

  /** `#render` with the default text item template and no fraction template:
      nothing for a hidden unit; otherwise the value, then the fraction when
      the unit shows one (after a space when the value is non-zero), then a
      space and the title when there is one. */
  lemma DefaultTextItem(inch: Inch, info: KeyInfo)
    requires NumberText(inch.calculated.fraction) && Template.PlainTruthy(info.title.GetOr(""))
    ensures var v := if info.required || info.value != 0.0 then NumberToString(info.value) else "";
      var f := if info.hasFraction then inch.calculated.fraction else "";
      var t := info.title.GetOr("");
      RenderText(inch, Some(info), TextItem, None) ==
        if !Shown(inch, info) then ""
        else v + (if f != "" then (if info.value != 0.0 then " " else "") + f else "") + (if t != "" then " " + t else "")
  {
    if Shown(inch, info) {
      var ctx := RenderContext(inch, info, None);
      ContextValues(inch, info, None);
      NumberToStringText(info.value);
      NumberTextPlain(NumberToString(info.value));
      NumberTextPlain(inch.calculated.fraction);
      assert Substitution.TextValues(ctx);
      Substitution.TextItemMeaning(ctx);
    }
  }

  /** With the default text item template a unit renders to a non-empty text
      exactly when it is shown. */
  lemma DefaultTextShown(inch: Inch, info: KeyInfo)
    requires NumberText(inch.calculated.fraction) && Template.PlainTruthy(info.title.GetOr(""))
    ensures RenderText(inch, Some(info), TextItem, None) != "" <==> Shown(inch, info)
  {
    DefaultTextItem(inch, info);
    NumberToStringText(info.value);
  }

  // ---------------------------------------------------------------------
  // #renderSizes, toString and html

  /** The rendering of every unit of `#calculated.sizes`, in order. */
  function UnitTexts(inch: Inch, sizes: seq<Size>, ts: TemplateSet<string>): (r: seq<string>)
    ensures |r| == |sizes|
    ensures forall i :: 0 <= i < |sizes| ==> r[i] == RenderText(inch, inch.Info(sizes[i].key), ts.itemTemplate, ts.fractionTemplate)
  {
    if sizes == [] then []
    else [RenderText(inch, inch.Info(sizes[0].key), ts.itemTemplate, ts.fractionTemplate)] + UnitTexts(inch, sizes[1..], ts)
  }

  /** The sign prefix of a view: `minus ?? '-'` for a negative value. */
  function SignPrefix<T>(inch: Inch, ts: TemplateSet<T>): string {
    if inch.minus then ts.minus.GetOr("-") else ""
  }

  /** `#renderSizes(type)` for the template set `ts`. */
  function RenderSizes(inch: Inch, ts: TemplateSet<string>): string
    requires inch.Valid()
  {
    var values := Join(NonEmpty(UnitTexts(inch, inch.calculated.sizes, ts)), ts.joiner.GetOr(" "));
    var shown := if values == "" then RenderText(inch, Some(Required(inch)), ts.itemTemplate, ts.fractionTemplate) else values;
    SignPrefix(inch, ts) + shown
  }

  /** `toString()` */
  function ToString(inch: Inch): string
    requires inch.Valid()
  {
    RenderSizes(inch, inch.options.templates.text)
  }

  /** `html()` */
  function Html(inch: Inch): string
    requires inch.Valid()
  {
    RenderSizes(inch, inch.options.templates.html)
  }

  /** No unit rendered anything. */
  predicate NoneRendered(texts: seq<string>) {
    forall i :: 0 <= i < |texts| ==> texts[i] == ""
  }

  /** The `if (!values)` test of `#renderSizes` asks whether any unit
      rendered: the joined non-empty texts are empty only when there are
      none. So the view is the sign, then either the rendered units joined
      by the joiner or, when no unit rendered, the required minimal unit. */
  lemma RenderSizesCases(inch: Inch, ts: TemplateSet<string>)
    requires inch.Valid()
    ensures var texts := UnitTexts(inch, inch.calculated.sizes, ts);
      RenderSizes(inch, ts) == SignPrefix(inch, ts) +
        if NoneRendered(texts) then RenderText(inch, Some(Required(inch)), ts.itemTemplate, ts.fractionTemplate)
        else Join(NonEmpty(texts), ts.joiner.GetOr(" "))
  {
    var texts := UnitTexts(inch, inch.calculated.sizes, ts);
    var values := Join(NonEmpty(texts), ts.joiner.GetOr(" "));
    JoinNonEmpty(NonEmpty(texts), ts.joiner.GetOr(" "));
    if NoneRendered(texts) {
      assert values == "";
    } else {
      assert values != "";
    }
  }

  /** When no unit renders, the view is the sign and the required minimal unit. */
  lemma RenderSizesFallback(inch: Inch, ts: TemplateSet<string>)
    requires inch.Valid() && NoneRendered(UnitTexts(inch, inch.calculated.sizes, ts))
    ensures RenderSizes(inch, ts) ==
      SignPrefix(inch, ts) + RenderText(inch, Some(Required(inch)), ts.itemTemplate, ts.fractionTemplate)
  {
    RenderSizesCases(inch, ts);
  }

  /** Unit titles the default text template shows plainly. */
  predicate PlainTitles(options: Options) {
    forall u :: Template.PlainTruthy(options.Unit(u).title.GetOr(""))
  }

  /** Every unit's info carries its unit's title. */
  lemma InfoTitle(inch: Inch, u: Unit)
    requires inch.Info(u).Some?
    ensures inch.Info(u).value.title == inch.options.Unit(u).title
  {
  }

  /** Under the default text item template `toString()` is never empty: when
      no unit is shown, the required minimal unit still shows its value. */
  lemma ToStringNonEmpty(inch: Inch)
    requires inch.Valid() && PlainTitles(inch.options)
    requires inch.options.templates.text.itemTemplate == TextItem && inch.options.templates.text.fractionTemplate == None
    ensures ToString(inch) != ""
  {
    var ts := inch.options.templates.text;
    var texts := UnitTexts(inch, inch.calculated.sizes, ts);
    RenderSizesCases(inch, ts);
    if NoneRendered(texts) {
      var m := Required(inch);
      MinimalTitle(inch);
      DefaultTextShown(inch, m);
    } else {
      JoinNonEmpty(NonEmpty(texts), ts.joiner.GetOr(" "));
    }
  }

  /** The minimal unit's info carries that unit's title. */
  lemma MinimalTitle(inch: Inch)
    requires inch.Valid()
    ensures inch.Minimal().title == inch.options.Unit(inch.Minimal().key).title
  {
  }

  /** Under the default text item template a unit appears in `toString()`
      exactly when it is among the sizes and shown: its value is non-zero or
      it shows a non-empty fraction. */
  lemma ToStringUnitShown(inch: Inch, u: Unit)
    requires NumberText(inch.calculated.fraction) && PlainTitles(inch.options)
    ensures var ts := inch.options.templates.text;
      ts.itemTemplate == TextItem && ts.fractionTemplate == None ==>
        (RenderText(inch, inch.Info(u), ts.itemTemplate, ts.fractionTemplate) != "" <==>
         inch.Info(u).Some? && Shown(inch, inch.Info(u).value))
  {
    var ts := inch.options.templates.text;
    if ts.itemTemplate == TextItem && ts.fractionTemplate == None && inch.Info(u).Some? {
      InfoTitle(inch, u);
      DefaultTextShown(inch, inch.Info(u).value);
    }
  }

  // ---------------------------------------------------------------------
  // parts

  /** One entry of `parts()`: a string or a number. */
  datatype Part = Label(text: string) | Amount(x: real)

  /** `isNaN(Number(value)) ? value : Number(value)`, where `numeric` is
      `Number` on the strings it accepts. */
  function Coerce(value: string, numeric: string -> Option<real>): Part {
    match numeric(value)
    case Some(x) => Amount(x)
    case None => Label(value)
  }

  function CoerceAll(values: seq<string>, numeric: string -> Option<real>): (r: seq<Part>)
    ensures |r| == |values|
    ensures forall k :: 0 <= k < |values| ==> r[k] == Coerce(values[k], numeric)
  {
    if values == [] then [] else [Coerce(values[0], numeric)] + CoerceAll(values[1..], numeric)
  }

  /** `clean`: `filter(Boolean)`, then the numeric coercion. */
  function Clean(values: seq<string>, numeric: string -> Option<real>): seq<Part> {
    CoerceAll(NonEmpty(values), numeric)
  }

  /** `clean(this.#render(this.#getInfo(key), itemTemplate))` */
  function UnitPart(inch: Inch, key: Unit, template: seq<string>, numeric: string -> Option<real>): seq<Part> {
    Clean(RenderArray(inch, inch.Info(key), template, None), numeric)
  }

  /** `key => clean(this.#render(this.#getInfo(key), itemTemplate))` */
  function PartOf(inch: Inch, template: seq<string>, numeric: string -> Option<real>): Unit -> seq<Part> {
    key => UnitPart(inch, key, template, numeric)
  }

  /** What the first n units of `sizes` push, in order. */
  function Gathered(sizes: seq<Size>, n: nat, part: Unit -> seq<Part>): seq<Part>
    requires n <= |sizes|
  {
    if n == 0 then [] else Gathered(sizes, n - 1, part) + part(sizes[n - 1].key)
  }

  /** The parts all units of `#calculated.sizes` push. */
  function UnitParts(inch: Inch, numeric: string -> Option<real>): seq<Part> {
    var sizes := inch.calculated.sizes;
    Gathered(sizes, |sizes|, PartOf(inch, inch.options.templates.parts.itemTemplate, numeric))
  }

  /** `result.push(minus ?? '-')` for a negative value. */
  function SignParts(inch: Inch): seq<Part> {
    if inch.minus then [Label(inch.options.templates.parts.minus.GetOr("-"))] else []
  }

  /** The clean rendering of the required minimal unit. */
  function FallbackParts(inch: Inch, numeric: string -> Option<real>): seq<Part>
    requires inch.Valid()
  {
    Clean(RenderArray(inch, Some(Required(inch)), inch.options.templates.parts.itemTemplate, None), numeric)
  }

  /** `parts()` as written: the fallback is pushed only when the whole result,
      sign included, is empty. */
  function PartsAsWritten(inch: Inch, numeric: string -> Option<real>): seq<Part>
    requires inch.Valid()
  {
    var result := SignParts(inch) + UnitParts(inch, numeric);
    if result == [] then FallbackParts(inch, numeric) else result
  }

  /** `parts()` with the fallback decided on the units' parts alone, as
      `#renderSizes` and `items` decide it. */
  function PartsOf(inch: Inch, numeric: string -> Option<real>): seq<Part>
    requires inch.Valid()
  {
    var units := UnitParts(inch, numeric);
    SignParts(inch) + (if units == [] then FallbackParts(inch, numeric) else units)
  }

  /** `parts()`: the sign, then what every unit pushes; the fallback test
      counts only what the units pushed. */
  method Parts(inch: Inch, numeric: string -> Option<real>) returns (result: seq<Part>)
    requires inch.Valid()
    ensures result == PartsOf(inch, numeric)
  {
    var ts := inch.options.templates.parts;
    result := [];
    if inch.minus {
      result := result + [Label(ts.minus.GetOr("-"))];
    }
    ghost var sign := result;
    assert sign == SignParts(inch);
    var signed := |result|;
    result := PushUnits(inch.calculated.sizes, result, PartOf(inch, ts.itemTemplate, numeric));
    ghost var units := UnitParts(inch, numeric);
    assert result == sign + units;
    ghost var fallback := FallbackParts(inch, numeric);
    if |result| == signed {
      assert units == [];
      assert result == sign;
      result := result + FallbackParts(inch, numeric);
      PartsOfIs(inch, numeric, sign, units, sign + fallback);
    } else {
      PartsOfIs(inch, numeric, sign, units, sign + units);
    }
  }

  /** A unit `#render` does not draw pushes nothing, and no unit pushes an
      empty string. */
  lemma UnitPartShape(inch: Inch, key: Unit, template: seq<string>, numeric: string -> Option<real>)
    ensures inch.Info(key).None? || !Shown(inch, inch.Info(key).value) ==> UnitPart(inch, key, template, numeric) == []
    ensures var r := UnitPart(inch, key, template, numeric);
      forall k :: 0 <= k < |r| ==> r[k] != Label("")
  {
  }

  /** The units' parts are empty exactly when no unit of `#calculated.sizes`
      pushes anything. */
  lemma UnitPartsEmpty(inch: Inch, numeric: string -> Option<real>)
    ensures var sizes := inch.calculated.sizes;
      UnitParts(inch, numeric) == [] <==>
      forall i :: 0 <= i < |sizes| ==> UnitPart(inch, sizes[i].key, inch.options.templates.parts.itemTemplate, numeric) == []
  {
    var sizes := inch.calculated.sizes;
    var part := PartOf(inch, inch.options.templates.parts.itemTemplate, numeric);
    GatheredEmpty(sizes, |sizes|, part);
    assert forall i :: 0 <= i < |sizes| ==>
      part(sizes[i].key) == UnitPart(inch, sizes[i].key, inch.options.templates.parts.itemTemplate, numeric);
  }

  /** The views mark a negative value, and only a negative value, with the
      same text: `parts()` pushes the parts set's `minus ?? '-'`, which
      `#renderSizes` puts in front of a view of that set. */
  lemma SignViews<T>(inch: Inch, ts: TemplateSet<T>)
    ensures SignParts(inch) != [] <==> inch.minus
    ensures inch.minus ==> SignParts(inch) == [Label(SignPrefix(inch, inch.options.templates.parts))]
    ensures SignPrefix(inch, ts) != "" ==> inch.minus
    ensures inch.minus && ts.minus.None? ==> SignPrefix(inch, ts) == "-"
  {
  }

  lemma PartsOfIs(inch: Inch, numeric: string -> Option<real>, sign: seq<Part>, units: seq<Part>, result: seq<Part>)
    requires inch.Valid() && sign == SignParts(inch) && units == UnitParts(inch, numeric)
    requires result == sign + (if units == [] then FallbackParts(inch, numeric) else units)
    ensures result == PartsOf(inch, numeric)
  {
  }

  /** The `sizes.forEach(({ key }) => result.push(...part(key)))` loop. */
  method PushUnits(sizes: seq<Size>, start: seq<Part>, part: Unit -> seq<Part>) returns (result: seq<Part>)
    ensures result == start + Gathered(sizes, |sizes|, part)
  {
    result := start;
    var i := 0;
    while i < |sizes|
      invariant 0 <= i <= |sizes|
      invariant result == start + Gathered(sizes, i, part)
    {
      result := result + part(sizes[i].key);
      i := i + 1;
    }
  }

  // ---------------------------------------------------------------------
  // items

  /** The filter of `items()`: a non-zero value or a shown fraction. */
  predicate Listed(inch: Inch, info: KeyInfo) {
    info.value != 0.0 || (info.hasFraction && inch.calculated.fraction != "")
  }

  /** `{ type: info.title ?? info.key, value: info.value, fraction? }` */
  function ItemOf(inch: Inch, info: KeyInfo): ItemData {
    Item(info.title.GetOr(KeyName(info.key)), info.value, if info.hasFraction then Some(inch.calculated.fraction) else None)
  }

  /** The map, filter, filter, map chain of `items()` over `sizes`. */
  function UnitItems(inch: Inch, sizes: seq<Size>): seq<ItemData> {
    if sizes == [] then []
    else
      var info := inch.Info(sizes[0].key);
      (if info.Some? && Listed(inch, info.value) then [ItemOf(inch, info.value)] else []) + UnitItems(inch, sizes[1..])
  }

  /** `items()`: the listed units; the minimal unit with value 0 when none is
      listed; a sign record first for a negative value. */
  function Items(inch: Inch): seq<ItemData>
    requires inch.Valid()
  {
    var items := UnitItems(inch, inch.calculated.sizes);
    var m := inch.Minimal();
    var listed := if items == [] then [Item(m.title.GetOr(KeyName(m.key)), 0.0, None)] else items;
    if inch.minus then [Sign] + listed else listed
  }
  // ---------------------------------------------------------------------
  // What parts and items promise

  /** The parts of the units are each unit's parts, in the order of `sizes`;
      they are empty exactly when every unit pushes nothing. */
  lemma {:induction false} GatheredEmpty(sizes: seq<Size>, n: nat, part: Unit -> seq<Part>)
    requires n <= |sizes|
    ensures Gathered(sizes, n, part) == [] <==> forall i :: 0 <= i < n ==> part(sizes[i].key) == []
  {
    if n > 0 {
      GatheredEmpty(sizes, n - 1, part);
    }
  }

  /** As written, `parts()` differs from the corrected version exactly when
      the value is negative, no unit pushes anything and the fallback is not
      empty: the minus marker alone then passes the `!result.length` test. */
  lemma PartsAsWrittenDiffers(inch: Inch, numeric: string -> Option<real>)
    requires inch.Valid()
    ensures PartsAsWritten(inch, numeric) != PartsOf(inch, numeric) <==>
      inch.minus && UnitParts(inch, numeric) == [] && FallbackParts(inch, numeric) != []
    ensures inch.minus && UnitParts(inch, numeric) == [] ==> PartsAsWritten(inch, numeric) == SignParts(inch)
  {
  }

  /** The fallback of `parts()` under the default parts template shows the
      value of the required minimal unit, so it is never empty. */
  lemma DefaultFallbackParts(inch: Inch, numeric: string -> Option<real>)
    requires inch.Valid() && inch.options.templates.parts.itemTemplate == DefaultOptions.templates.parts.itemTemplate
    ensures FallbackParts(inch, numeric) != []
    ensures FallbackParts(inch, numeric)[0] == Coerce(NumberToString(inch.Minimal().value), numeric)
  {
    var m := Required(inch);
    var ctx := RenderContext(inch, m, None);
    var values := ExpandAll(inch.options.templates.parts.itemTemplate, ctx);
    ValueExpands(inch, m);
    assert values[0] == NumberToString(m.value);
    NumberToStringText(m.value);
    assert NonEmpty(values) == [values[0]] + NonEmpty(values[1..]);
  }

  /** `{{value}}` expands to the shown value of a required unit. */
  lemma ValueExpands(inch: Inch, info: KeyInfo)
    requires info.required
    ensures Template.Expand("{{value}}", RenderContext(inch, info, None), Template.MaxPasses) == NumberToString(info.value)
  {
    var ctx := RenderContext(inch, info, None);
    ContextValues(inch, info, None);
    NumberToStringText(info.value);
    NumberTextPlain(NumberToString(info.value));
    Substitution.Keys();
    PlaceholderLiterals();
    ShownPlaceholder(ctx, "value", NumberToString(info.value));
  }

  /** A lone placeholder whose value has no "{{" expands to that value. */
  lemma ShownPlaceholder(ctx: Template.Context, key: string, v: string)
    requires Template.IsWord(key) && Template.Show(ctx, key) == v && Template.Plain(v)
    ensures Template.Expand(Template.Placeholder(key), ctx, Template.MaxPasses) == v
  {
    Template.SimpleSubstitution(key, ctx, Template.MaxPasses);
  }

  lemma PlaceholderLiterals()
    ensures Template.Placeholder("value") == "{{value}}"
    ensures Template.Placeholder("fraction") == "{{fraction}}"
    ensures Template.Placeholder("title") == "{{title}}"
  {
  }

  /** The items of the units are records, never the sign record; there are
      none exactly when no unit is listed. */
  lemma {:induction false} UnitItemsShape(inch: Inch, sizes: seq<Size>)
    ensures forall k :: 0 <= k < |UnitItems(inch, sizes)| ==> UnitItems(inch, sizes)[k].Item?
    ensures UnitItems(inch, sizes) == [] <==>
      forall i :: 0 <= i < |sizes| ==> inch.Info(sizes[i].key).None? || !Listed(inch, inch.Info(sizes[i].key).value)
  {
    if sizes != [] {
      UnitItemsShape(inch, sizes[1..]);
      assert forall i :: 1 <= i < |sizes| ==> sizes[i] == sizes[1..][i - 1];
    }
  }

  /** `items()` is never empty; it starts with the sign record exactly for a
      negative value and holds no other sign record; when no unit is listed
      it holds the minimal unit with value 0 (and no fraction), otherwise the
      listed units. */
  lemma ItemsShape(inch: Inch)
    requires inch.Valid()
    ensures var items := Items(inch);
      var units := UnitItems(inch, inch.calculated.sizes);
      var m := inch.Minimal();
      items != [] &&
      (items[0] == Sign <==> inch.minus) &&
      (forall k :: 0 < k < |items| ==> items[k].Item?) &&
      items == (if inch.minus then [Sign] else []) +
        (if units == [] then [Item(m.title.GetOr(KeyName(m.key)), 0.0, None)] else units)
  {
    UnitItemsShape(inch, inch.calculated.sizes);
  }

  /** `items()` lists a unit that is not the required one exactly when
      `#render` shows it, so `items()` and the other views agree on which
      units appear. */
  lemma ListedIsShown(inch: Inch, info: KeyInfo)
    requires !info.required
    ensures Listed(inch, info) <==> Shown(inch, info)
  {
  }

  // ---------------------------------------------------------------------
  // A value that shows no unit

  /** With every count zero and no fraction text, no unit is shown. */
  lemma NothingShown(inch: Inch, u: Unit)
    requires inch.calculated.accurate == ZeroLength && inch.calculated.fraction == ""
    ensures inch.Info(u).None? || !Shown(inch, inch.Info(u).value)
  {
  }

  /** Then every view falls back to the minimal unit: no unit renders text,
      parts or items. */
  lemma NothingRendered(inch: Inch, numeric: string -> Option<real>, ts: TemplateSet<string>)
    requires inch.calculated.accurate == ZeroLength && inch.calculated.fraction == ""
    ensures NoneRendered(UnitTexts(inch, inch.calculated.sizes, ts))
    ensures UnitParts(inch, numeric) == []
    ensures UnitItems(inch, inch.calculated.sizes) == []
  {
    var sizes := inch.calculated.sizes;
    forall u ensures inch.Info(u).None? || !Shown(inch, inch.Info(u).value) {
      NothingShown(inch, u);
    }
    var part := PartOf(inch, inch.options.templates.parts.itemTemplate, numeric);
    forall i | 0 <= i < |sizes| ensures part(sizes[i].key) == [] {
      assert RenderArray(inch, inch.Info(sizes[i].key), inch.options.templates.parts.itemTemplate, None) == [];
    }
    GatheredEmpty(sizes, |sizes|, part);
    UnitItemsShape(inch, sizes);
  }

  /** -0.1 mm under the defaults: no whole unit and a fraction that rounds to
      nothing. (The length is a parameter so that the solver does not unfold
      the whole conversion on a literal.) */
  lemma TenthBelowZero(mm: real)
    requires mm == -0.1
    ensures InchOf(Some(mm), NoParams).Success?
    ensures TenthShape(InchOf(Some(mm), NoParams).value)
  {
    TenthCalculated(mm);
    var c := CalculateSpec(mm, DefaultOptions).value;
    DefaultsInchOf(mm, c);
    Constructed(Some(mm), NoParams);
    DefaultTemplates();
    TenthShapeOf(InchOf(Some(mm), NoParams).value, c);
  }

  /** -0.1 mm under the defaults: every count zero, no fraction text, all
      four units retained. */
  lemma TenthCalculated(mm: real)
    requires mm == -0.1
    ensures CalculateSpec(mm, DefaultOptions).Success?
    ensures var c := CalculateSpec(mm, DefaultOptions).value;
      c.accurate == ZeroLength && c.fraction == "" && Keys(c.sizes) == [Miles, Yards, Feet, Inches]
  {
    BelowOneInchCounts(mm);
    BelowOneInch(mm);
    CalculateState(mm, DefaultOptions);
    DefaultFraction(mm);
    assert JsRound(0.1 / 25.4 * 16.0) == 0;
    ReduceCases(0, 16);
    CalculateSizes(mm, DefaultOptions);
    DefaultRetained();
  }

  /** Without parameters the constructor keeps the defaults and the length in
      millimetres. */
  lemma DefaultsInchOf(mm: real, c: Calculated)
    requires CalculateSpec(mm, DefaultOptions) == Success(c)
    ensures InchOf(Some(mm), NoParams) == Success(Inch(DefaultOptions, mm, mm < 0.0, c))
  {
    MergeNothing(DefaultOptions);
    assert Scaled(mm, DefaultOptions.input) == mm;
  }

  /** The default templates and the default inches title. */
  lemma DefaultTemplates()
    ensures DefaultOptions.templates.text == TemplateSet(TextItem, None, Some("-"), Some(" "))
    ensures DefaultOptions.templates.parts == TemplateSet(["{{value}}", "{{fraction}}", "{{title}}"], None, Some("-"), None)
    ensures DefaultOptions.inches.title == Some("in")
  {
  }

  lemma TenthShapeOf(inch: Inch, c: Calculated)
    requires inch == Inch(DefaultOptions, inch.mm, inch.mm < 0.0, c) && inch.mm < 0.0 && inch.Valid()
    requires c.accurate == ZeroLength && c.fraction == "" && Keys(c.sizes) == [Miles, Yards, Feet, Inches]
    requires DefaultOptions.templates.text == TemplateSet(TextItem, None, Some("-"), Some(" "))
    requires DefaultOptions.templates.parts == TemplateSet(["{{value}}", "{{fraction}}", "{{title}}"], None, Some("-"), None)
    requires DefaultOptions.inches.title == Some("in")
    ensures TenthShape(inch)
  {
  }

  /** A negative value with every count zero and no fraction text, under the
      default templates and the default inches title. */
  predicate TenthShape(inch: Inch) {
    inch.minus && inch.Valid() &&
    inch.calculated.accurate == ZeroLength && inch.calculated.fraction == "" &&
    Keys(inch.calculated.sizes) == [Miles, Yards, Feet, Inches] &&
    inch.options.templates.text == TemplateSet(TextItem, None, Some("-"), Some(" ")) &&
    inch.options.templates.parts == TemplateSet(["{{value}}", "{{fraction}}", "{{title}}"], None, Some("-"), None) &&
    inch.options.inches.title == Some("in")
  }

  lemma InchesTitlePlain()
    ensures Template.PlainTruthy("in") && "in" != ""
  {
  }

  /** The minimal unit of the defaults is inches, titled "in". */
  lemma TenthMinimal(inch: Inch)
    requires TenthShape(inch)
    ensures inch.Valid() && inch.Minimal().key == Inches && inch.Minimal().title == Some("in")
    ensures inch.Minimal().value == 0.0 && !inch.Minimal().hasFraction
  {
    var sizes := inch.calculated.sizes;
    assert Keys(sizes)[|sizes| - 1] == Inches;
  }

  /** Such a value renders as "-0 in". */
  lemma TenthText(inch: Inch)
    requires TenthShape(inch)
    ensures ToString(inch) == "-0 in"
  {
    TenthMinimal(inch);
    var ts := inch.options.templates.text;
    NothingRendered(inch, _ => None, ts);
    var m := Required(inch);
    RenderSizesFallback(inch, ts);
    TenthRequiredText(inch, m);
    assert SignPrefix(inch, ts) == "-";
    assert ToString(inch) == "-" + "0 in";
    TenthLiterals();
  }

  lemma TenthLiterals()
    ensures "-" + "0 in" == "-0 in" && "0" + "" + " in" == "0 in"
  {
  }

  lemma TenthRequiredText(inch: Inch, m: KeyInfo)
    requires NumberText(inch.calculated.fraction)
    requires m.required && m.value == 0.0 && !m.hasFraction && m.title == Some("in")
    ensures RenderText(inch, Some(m), TextItem, None) == "0 in"
  {
    InchesTitlePlain();
    DefaultTextItem(inch, m);
    assert NumberToString(0.0) == "0";
    TenthLiterals();
  }

  /** Its items are the sign record and inches with value 0. */
  lemma TenthItems(inch: Inch)
    requires inch.Valid() && inch.minus
    requires inch.calculated.accurate == ZeroLength && inch.calculated.fraction == ""
    requires inch.Minimal().key == Inches && inch.Minimal().title == Some("in")
    ensures Items(inch) == [Sign, Item("in", 0.0, None)]
  {
    NothingRendered(inch, _ => None, inch.options.templates.text);
    ItemsShape(inch);
  }

  /** Its parts as written are only the minus marker, while the corrected
      version adds the required inches' value and title. */
  lemma TenthParts(inch: Inch, numeric: string -> Option<real>)
    requires TenthShape(inch)
    ensures PartsAsWritten(inch, numeric) == [Label("-")]
    ensures PartsOf(inch, numeric) == [Label("-"), Coerce("0", numeric), Coerce("in", numeric)]
  {
    NothingRendered(inch, numeric, inch.options.templates.text);
    TenthMinimal(inch);
    TenthFallbackParts(inch, numeric);
    var sign := SignParts(inch);
    assert sign == [Label("-")];
    PartsWithoutUnits(inch, numeric);
    PrependSign(Label("-"), Coerce("0", numeric), Coerce("in", numeric));
  }

  /** When no unit pushes anything, `parts()` is the sign and the fallback,
      and as written only the sign when there is one. */
  lemma PartsWithoutUnits(inch: Inch, numeric: string -> Option<real>)
    requires inch.Valid() && UnitParts(inch, numeric) == []
    ensures PartsOf(inch, numeric) == SignParts(inch) + FallbackParts(inch, numeric)
    ensures PartsAsWritten(inch, numeric) == if inch.minus then SignParts(inch) else FallbackParts(inch, numeric)
  {
  }

  lemma TenthFallbackParts(inch: Inch, numeric: string -> Option<real>)
    requires inch.Valid() && inch.options.templates.parts.itemTemplate == ["{{value}}", "{{fraction}}", "{{title}}"]
    requires inch.Minimal().value == 0.0 && !inch.Minimal().hasFraction && inch.Minimal().title == Some("in")
    ensures FallbackParts(inch, numeric) == [Coerce("0", numeric), Coerce("in", numeric)]
  {
    var m := Required(inch);
    var ctx := RenderContext(inch, m, None);
    TenthFallback(inch, m, ctx);
    var tpl := inch.options.templates.parts.itemTemplate;
    assert FallbackParts(inch, numeric) == Clean(ExpandAll(tpl, ctx), numeric);
    CleanThree(tpl, ctx, numeric, "0", "in");
  }

  /** Three templates that expand to a value, nothing and a title leave two parts. */
  lemma CleanThree(tpl: seq<string>, ctx: Template.Context, numeric: string -> Option<real>, a: string, c: string)
    requires |tpl| == 3 && a != "" && c != ""
    requires Template.Expand(tpl[0], ctx, Template.MaxPasses) == a
    requires Template.Expand(tpl[1], ctx, Template.MaxPasses) == ""
    requires Template.Expand(tpl[2], ctx, Template.MaxPasses) == c
    ensures Clean(ExpandAll(tpl, ctx), numeric) == [Coerce(a, numeric), Coerce(c, numeric)]
  {
    var values := ExpandAll(tpl, ctx);
    assert values == [a, "", c];
    assert values[1..] == ["", c];
    assert values[1..][1..] == [c];
    assert NonEmpty([c]) == [c];
    assert NonEmpty(values) == [a, c];
    assert [a, c][1..] == [c];
  }

  lemma PrependSign(s: Part, x: Part, y: Part)
    ensures [s] + [x, y] == [s, x, y]
  {
  }

  /** `new Inch(-0.1)`: `toString()` is "-0 in", `items()` the sign record and
      inches with value 0, and `parts()` as written only the minus marker. */
  lemma TenthBelowZeroViews(mm: real, numeric: string -> Option<real>)
    requires mm == -0.1
    ensures InchOf(Some(mm), NoParams).Success?
    ensures var inch := InchOf(Some(mm), NoParams).value;
      inch.Valid() && ToString(inch) == "-0 in" && Items(inch) == [Sign, Item("in", 0.0, None)] &&
      PartsAsWritten(inch, numeric) == [Label("-")] &&
      PartsOf(inch, numeric) == [Label("-"), Coerce("0", numeric), Coerce("in", numeric)]
  {
    TenthBelowZero(mm);
    var inch := InchOf(Some(mm), NoParams).value;
    TenthText(inch);
    TenthMinimal(inch);
    TenthItems(inch);
    TenthParts(inch, numeric);
  }

  /** The three default part templates over the required inches of -0.1 mm. */
  lemma TenthFallback(inch: Inch, m: KeyInfo, ctx: Template.Context)
    requires ctx == RenderContext(inch, m, None) && m.required && m.value == 0.0 && !m.hasFraction && m.title == Some("in")
    ensures Template.Expand("{{value}}", ctx, Template.MaxPasses) == "0"
    ensures Template.Expand("{{fraction}}", ctx, Template.MaxPasses) == ""
    ensures Template.Expand("{{title}}", ctx, Template.MaxPasses) == "in"
  {
    ValueExpands(inch, m);
    assert NumberToString(0.0) == "0";
    ContextValues(inch, m, None);
    Substitution.Keys();
    PlaceholderLiterals();
    ShownPlaceholder(ctx, "fraction", "");
    assert Template.Plain("in");
    ShownPlaceholder(ctx, "title", "in");
  }
}

# to-inches in Dafny

`to-inches` turns a length, given in millimetres or another input unit, into
imperial units. It splits the length greedily into miles, yards, feet and
inches, and puts a reduced fraction such as `3/8` on the smallest unit that
takes part. It then renders the result in four ways through a small
placeholder language (`{{key}}` and `{{key?truthy:falsy}}`):
- a plain string (`toString`);
- marked-up text (`html`);
- a list of tokens (`parts`);
- a list of records (`items`).

This project models class `Inch` of `src/to-inches.ts` and the tables of
`src/constants.ts`, and proves what they promise.

Modules, one per part of the source:

- `Constants` (`constants.dfy`) holds the unit order, the input multipliers,
  the inch divisors and the default options.
- `Interfaces` (`interfaces.dfy`) holds the data shapes of
  `src/interfaces.ts`: units, per-unit options, template sets, `Calculated`
  and `KeyInfo`.
- `Rounding` (`rounding.dfy`) covers `Inch.round` with JavaScript
  `Math.round`, and `Inch.gcd` over JavaScript's `%`.
- `Fractions` (`fraction.dfy`) covers `#calculateFraction`.
- `Decomposition` (`decomposition.dfy`) covers `#getSizes`, the
  `#calculate` loop, `#getInfo` and `#getMinimal`.
- `Template` (`template.dfy`) covers `#processTemplate`. The two regular
  expressions are modelled by scanners that try the alternatives in the
  order the backtracking engine tries them. The `do … while` loop is a
  method proved against a loop function.
  The context is a plain object, so a key it does not own still finds the
  properties inherited from `Object.prototype` (`constructor`, `toString`,
  `__proto__`, …).
- `Substitution` (`substitution.dfy`) takes templates apart chunk by chunk.
  It is used to prove what the default string template renders.
- `Inches` (`inch.dfy`) covers the constructor with its option merge,
  `#render`, `#renderSizes`, `toString`, `html`, `parts` and `items`.
- `JsText` (`jstext.dfy`) holds `String(number)`, `split`,
  `filter(Boolean)` and `join`.
- `Wrappers` (`wrappers.dfy`) holds `Option` and `Result`.

An `Inch` never changes after its constructor, so it is a datatype. The
constructor's `throw` becomes a `Result` failure.

Methods model the parts of the source that loop:
- `GetSizes`;
- `Calculate` with `TakeUnit` and `OverwriteSizes`;
- `DoWhile` and `ProcessTemplate`;
- `Parts` with `PushUnits`.

Each method is proved equal to a specification function. The properties
are proved about those functions.

Three behaviours of the code a reader may not expect, which the model
follows:
- `Math.round` sends halves toward +∞, so `round(-1.5)` is `-1`
  (`Rounding.RoundHalves`).
- When no unit is retained, `#getMinimal` throws "No minimal value found"
  (`Decomposition.CalculateFails`).
- The default `html` fraction template writes `&frasl;` between numerator
  and denominator, as `src/constants.ts` does, while the html expectations
  in `src/to-inches.spec.ts` (from line 23) have `/` there.

`src/to-inches.ts:208` spells the `{{minus}}` context entry as a mis-encoded character.
The model reads it as U+2212 MINUS SIGN, the character whose UTF-8 bytes
are shown that way.

## Model

| member | source | states |
|---|---|---|
| Constants.Rank | src/constants.ts:3 | every unit has exactly one position in `Order`, and `Order` at that position is the unit |
| Constants.DividersDescend | src/constants.ts:16-21 | the inch divisors strictly decrease along `Order`; each is a whole multiple of the next: 1760 yards to the mile, 3 feet to the yard, 12 inches to the foot; inches divide by 1 |
| Constants.RawDivider | src/constants.ts:16-21 | the `RawDividers` table; stated by `Constants.DividersDescend` |
| Constants.InputMultiplier | src/constants.ts:5-14 | the `InputMultiplayer` table; stated by `Constants.ImperialMultipliersMatchDividers` |
| Constants.ImperialMultipliersMatchDividers | src/constants.ts:5-21 | the `in`, `ft`, `yd` and `mi` input multipliers are 25.4 mm times that unit's inch divisor |
| Constants.DefaultOptionsShape | src/constants.ts:23-47 | in the defaults every unit is enabled; only inches has a truthy fraction option, and it is exactly 'fraction'; the denominator is 16 |
| Rounding.JsRound | src/to-inches.ts:73 | `Math.round(x)` is the integer n with n − 1/2 ≤ x < n + 1/2; halves go up |
| Rounding.Floor | src/to-inches.ts:72 | `Math.floor(x)` is the integer n with n ≤ x < n + 1 |
| Rounding.PowTen | src/to-inches.ts:74 | `10 ** k` for a whole k, negative k included: positive, and each step of k is a factor of ten (`Rounding.PowTenStep`) |
| Rounding.PowTenStep | src/to-inches.ts:74 | `10 ** (k + 1)` is ten times `10 ** k` for every integer k |
| Rounding.DecimalText | src/to-inches.ts:74 | `String(p)` for 0 < p < 1 starts with "0." followed by digits only, and those digits read back as the precision's mantissa (`Rounding.DigitsValue`) |
| Rounding.DigitsValue | src/to-inches.ts:74 | `Number(String(p).slice(2))` is the integer the decimal digits of p form |
| Rounding.MultiplierIs | src/to-inches.ts:74 | the multiplier is `10 ** p` for a whole precision p; for 0 < p < 1 it is the integer formed by the digits after "0." (0.4 gives 4, 0.125 gives 125) |
| Rounding.Multiplier | src/to-inches.ts:74 | the multiplier of `Inch.round`: `10 ** p`, or `Number(String(p).slice(2))` for 0 < p < 1; its ensures says it is positive, and `Rounding.MultiplierIs` states its value |
| Rounding.Round | src/to-inches.ts:71-76 | `Inch.round(value, precision)`: the floor for precision 0, `Math.round` for none, and otherwise `Math.round(value · m) / m` for the multiplier m; what it yields is stated by `Rounding.RoundCases` |
| Rounding.RoundCases | src/to-inches.ts:71-76 | precision 0 gives the floor; no precision gives the nearest integer, halves up; any other precision gives the nearest multiple of 1/multiplier to the value, halves up |
| Rounding.RoundToThousands | src/to-inches.ts:69-76 | the documented example: `round(123456789, -3)` is 123457000, and 123456289 rounds down to 123456000 |
| Rounding.RoundToDigitMultiplier | src/to-inches.ts:64-76 | precision 0.3 rounds to thirds and 0.4 to quarters, as the documentation warns |
| Rounding.RoundHalves | src/to-inches.ts:72-73 | with no precision, 1.5 rounds to 2 and −1.5 to −1; precision 0 floors −1.5 to −2 |
| Rounding.JsRem | src/to-inches.ts:82 | the remainder is smaller in magnitude than the divisor; for a non-negative dividend and positive divisor it is the mathematical remainder |
| Rounding.Gcd | src/to-inches.ts:81-83 | the recursion ends for every pair of integers; the result is non-zero when b ≠ 0 and non-negative for non-negative arguments |
| Rounding.GcdDividesBoth | src/to-inches.ts:81-83 | gcd(a, b) divides a and b |
| Rounding.GcdGreatest | src/to-inches.ts:81-83 | every positive common divisor of a and b divides gcd(a, b), so no common divisor is greater |
| Fractions.LowestTerms | src/to-inches.ts:166-168 | dividing numerator and denominator by their gcd leaves two coprime numbers |
| Fractions.CalculateFraction | src/to-inches.ts:162-173 | `#calculateFraction`: round remainder times denominator, divide both by their gcd, print "", "1" or "n/d"; what the text means is stated by `Fractions.CalculateFractionCases` |
| Fractions.ReduceCases | src/to-inches.ts:166-172 | for 0 ≤ q ≤ den the text is "" exactly when q = 0 and "1" exactly when q = den; otherwise it is "n/d", with n/d = q/den, 0 < n < d, n and d coprime, and d dividing den |
| Fractions.Reduce | src/to-inches.ts:166-172 | the division of numerator and denominator by their gcd and the three printed outcomes; stated by `Fractions.ReduceCases` and `Fractions.LowestTerms` |
| Fractions.FractionText | src/to-inches.ts:170-172 | the three returns "", "1" and `${numerator}/${reducedDenominator}`; stated by `Fractions.ReduceCases` and `Fractions.FractionTextText` |
| Fractions.FractionTextText | src/to-inches.ts:170-172 | every text those returns give is made only of digits, '-', '.' and '/' |
| Fractions.CalculateFractionCases | src/to-inches.ts:162-173 | for a remainder in [0, 1), the numerator `Math.round(f · den)` lies in 0..den; the text is empty, "1", or the proper fraction in lowest terms equal to numerator/den, in those three cases |
| Fractions.ZeroFraction | src/to-inches.ts:164-170 | a zero remainder gives no fraction text |
| Fractions.MillimetreFraction | src/to-inches.ts:162-173 | the remainder of one millimetre (1/25.4 inch) gives "1/den" for every denominator from 13 to 38 |
| Fractions.OneMillimetreFraction | src/to-inches.ts:162-173 | one millimetre is "1/16" at denominator 16 and "1/32" at 32 |
| Fractions.CalculateFractionText | src/to-inches.ts:162-173 | the fraction text is made only of digits, '-', '.' and '/', so no template pattern reacts to it |
| Decomposition.WalkShape | src/to-inches.ts:128-132 | from any position of `Order` the walk yields units in `Order`, each once, with a truthy fraction option only on the last one |
| Decomposition.Walk | src/to-inches.ts:128-132 | the `while (hasSense && order.length)` walk over the units still to visit; its shape is stated by `Decomposition.WalkShape` and `Decomposition.WalkHas` |
| Decomposition.Retained | src/to-inches.ts:123-135 | `#getSizes()`, the walk from the top of `Order`; stated by `Decomposition.RetainedShape` and computed by the method `Decomposition.GetSizes` |
| Decomposition.WalkHas | src/to-inches.ts:128-132 | a unit is in the walk from position k exactly when it comes at or after k, is enabled, and no unit from k up to (not including) it has a truthy fraction option |
| Decomposition.GetSizes | src/to-inches.ts:123-135 | the `while (hasSense && order.length)` loop returns the retained units with their divisors |
| Decomposition.RetainedShape | src/to-inches.ts:123-135 | the retained units are enabled, carry their divisors and come in `Order`; only the last may have a truthy fraction option; a unit is retained exactly when it is enabled and no larger unit has a truthy fraction option |
| Decomposition.DefaultRetained | src/to-inches.ts:123-135 | the defaults retain miles, yards, feet and inches with divisors 63360, 36, 12 and 1 |
| Decomposition.Start | src/to-inches.ts:86 | the loop starts with \|mm\| / 25.4 inches to allocate and nothing allocated |
| Decomposition.Precise | src/to-inches.ts:90 | `precise`, the signed length in each unit; stated by `Decomposition.PreciseInUnits` |
| Decomposition.PreciseInUnits | src/to-inches.ts:90 | each `precise` entry times its unit's divisor is mm / 25.4: the four entries are one signed length |
| Decomposition.AllocationCases | src/to-inches.ts:98-103 | a falsy option or 'fraction' takes the floor of the value; `true` takes all of it; a numeric option takes the nearest multiple of 1/multiplier, as `Inch.round` does |
| Decomposition.Allocation | src/to-inches.ts:98-103 | the count one unit takes of its value under its fraction option; stated by `Decomposition.AllocationCases` |
| Decomposition.Allocate | src/to-inches.ts:94-110 | the `for` loop of `#calculate` over the retained units, which stops once nothing is left; what it keeps is stated by `Decomposition.CalculateConserves`, `Decomposition.CalculateRebuilds` and `Decomposition.CalculateCoherent` |
| Decomposition.CalculateSpec | src/to-inches.ts:85-121 | the value `#calculate(mm)` returns, or its throw; computed by the method `Decomposition.Calculate` and described by the `Decomposition.Calculate…` lemmas below |
| Decomposition.Step | src/to-inches.ts:96-109 | one loop pass records the unit's allocation and remainder and leaves every other unit as it was; the inches left are never negative, and are either 0 or at least 1e-15 |
| Decomposition.TakeUnit | src/to-inches.ts:96-109 | the loop body computes exactly that step |
| Decomposition.Calculate | src/to-inches.ts:85-121 | `#calculate` returns `CalculateSpec`: the greedy allocation, the fraction of the minimal unit and the overwritten sizes; it fails when `#getMinimal` throws |
| Decomposition.OverwriteSizes | src/to-inches.ts:116-118 | after the `forEach`, every size holds that unit's allocation, with the same keys in the same order |
| Decomposition.Overwritten | src/to-inches.ts:116-118 | the sizes after `sizes[index].value = accurate[key]`: same length, and each entry keeps its key and holds that unit's count |
| Decomposition.FindIndex | src/to-inches.ts:138 | `findIndex` is −1 exactly when the key is absent, and otherwise the first position holding the key |
| Decomposition.GetInfo | src/to-inches.ts:137-153 | `null` exactly for a unit that is not in the sizes; otherwise its index and key; `isLast` holds exactly at the last index; `hasFraction` holds exactly when the unit's fraction option is truthy, it is last and the fraction text is non-empty; the value is the unit's count |
| Decomposition.GetMinimal | src/to-inches.ts:155-160 | fails exactly when the sizes are empty; otherwise it describes the last size |
| Decomposition.MinimalIsLast | src/to-inches.ts:137-160 | for retained sizes the minimal unit is at the last index and is marked last |
| Decomposition.CalculateFails | src/to-inches.ts:155-160 | `#calculate` throws "No minimal value found" exactly when nothing is retained, that is, when every enabled unit has a larger unit with a truthy fraction option |
| Decomposition.CalculateUnretained | src/to-inches.ts:91-110 | a unit that is not retained keeps count 0 and remainder 0 |
| Decomposition.CalculateCoherent | src/to-inches.ts:98-106 | every floored unit gets a whole count and a remainder in [0, 1); a unit with option `true` keeps no remainder |
| Decomposition.CalculateConserves | src/to-inches.ts:94-110 | with floor or `true` options the counts times the divisors never exceed the length in inches, and they fall short of it by less than one of the smallest retained unit |
| Decomposition.CalculateRebuilds | src/to-inches.ts:94-110 | with floor or `true` options the counts times their divisors, plus the minimal unit's remainder times its divisor, give back the length in inches, short by less than 1e-15: the loop drops at most one float residue |
| Decomposition.CalculateRoundTrip | src/to-inches.ts:94-114 | with those options the counts and the fraction's numerator `Math.round(remainder · den)` over den give back the length in inches to within half of 1/den of the minimal unit (plus 1e-15) |
| Decomposition.CalculateFractionOf | src/to-inches.ts:112-114 | a non-empty fraction text means the minimal unit's option is 'fraction'; under that option its remainder lies in [0, 1) and the text is that remainder's reduced fraction |
| Decomposition.CalculateSizes | src/to-inches.ts:116-118 | the returned sizes are the retained units, each holding its count |
| Decomposition.BelowOneInchCounts | src/to-inches.ts:94-110 | under the defaults a length below one inch (and above float residue) gives every unit count 0 |
| Decomposition.DefaultFraction | src/to-inches.ts:112-114 | under the defaults the fraction text is the inches remainder in sixteenths |
| Decomposition.OneMillimetre | src/to-inches.ts:85-121 | one millimetre under the defaults gives all counts 0 and the fraction "1/16" |
| Template.WordEnd | src/to-inches.ts:15 | `\w+` takes the longest run of word characters |
| Template.SimpleAt | src/to-inches.ts:15 | a match of `{{(\w+)}}` at i opens with "{{", holds a word and closes with "}}" |
| Template.ReplaceSimple | src/to-inches.ts:190 | the global `replace` of `{{(\w+)}}`, left to right over non-overlapping matches; stated by `Template.SimpleSubstitution` and `Template.PlainUnchanged` |
| Template.Show | src/to-inches.ts:190 | `String(context[key] ?? '')`: an own string as is, an own number through `String`, an inherited `Object.prototype` property through `Template.InheritedText`, otherwise ""; stated by `Template.SimpleSubstitution` and `Inches.ContextValues` |
| Template.Inherited | src/to-inches.ts:207-216 | the `\w+` names a plain object literal inherits from `Object.prototype`: `__proto__` and its eleven methods; used by `Template.InheritedSubstitution` |
| Template.InheritedText | src/to-inches.ts:190 | `String` of an inherited property: "[object Object]" for `__proto__`, the `Object` function for `constructor`, a native function of its own name otherwise; stated by `Template.InheritedPlain` and `Template.InheritedSubstitution` |
| Template.TruthyEnd | src/to-inches.ts:16 | a match of the lazy truthy group ends at a ':', followed by a falsy part without '{' and the closing "}}" |
| Template.FalsyEnd | src/to-inches.ts:16 | a match of the lazy falsy group ends at a closing "}}" and crosses no '{' |
| Template.ConditionalAt | src/to-inches.ts:16 | a match of the conditional pattern at i opens with "{{", has a word key, and ends inside the text |
| Template.ReplaceConditional | src/to-inches.ts:191 | the global `replace` of the conditional pattern, left to right; stated by `Template.ConditionalSubstitution` and `Template.PlainUnchanged` |
| Template.Choose | src/to-inches.ts:191 | the replacement of one conditional match: the truthy branch when the context value is truthy, else the falsy one; stated by `Template.ConditionalSubstitution` |
| Template.Truthy | src/to-inches.ts:191 | JavaScript truthiness of `context[key]`: a non-empty own string or a non-zero own number, or an inherited `Object.prototype` property; stated by `Template.ConditionalSubstitution` and `Inches.ContextValues` |
| Template.Pass | src/to-inches.ts:189-191 | one loop body: the simple replace, then the conditional replace; stated by `Template.ExpandOnce` |
| Template.Expand | src/to-inches.ts:188-192 | the `do … while` loop; stated by `Template.ExpandIsFirstSettled` and computed by the method `Template.DoWhile` |
| Template.SimpleIsConditional | src/to-inches.ts:15-16 | every `{{key}}` is also a match of the conditional pattern, with the optional group absent |
| Template.SettledIsNoConditional | src/to-inches.ts:192 | the loop condition fails exactly when the conditional pattern finds no match |
| Template.HasSimple | src/to-inches.ts:192 | `simpleRe.test(template)`: some position holds a `{{(\w+)}}` match; it implies `Template.HasConditional` (`Template.HasSimpleHasConditional`) |
| Template.HasSimpleHasConditional | src/to-inches.ts:192 | wherever `simpleRe` finds a match, `conditionalRe` finds one too |
| Template.HasConditional | src/to-inches.ts:192 | `conditionalRe.test(template)`: some position holds a conditional match; stated by `Template.SettledIsNoConditional` |
| Template.Settled | src/to-inches.ts:192 | the loop test `simpleRe.test(template) \|\| conditionalRe.test(template)` fails; stated by `Template.SettledIsNoConditional` |
| Template.LoopIsFirstStop | src/to-inches.ts:188-192 | a do-while loop returns the result of its first k passes, where pass k is the first whose result meets the stop test, or the last the fuel allows |
| Template.DoWhile | src/to-inches.ts:188-192 | the `do … while` loop computes that loop function |
| Template.ExpandOnce | src/to-inches.ts:188-192 | one pass, then the loop ends on a settled result or goes round again on the new text |
| Template.ProcessTemplate | src/to-inches.ts:187-195 | `#processTemplate` returns the expansion of the template over the context |
| Template.ExpandIsFirstSettled | src/to-inches.ts:187-195 | the expansion is the text after the first pass that leaves no pattern to match, or after the last pass the bound allows |
| Template.PlainUnchanged | src/to-inches.ts:187-195 | a template without "{{" comes back unchanged and ends the loop |
| Template.SimpleSubstitution | src/to-inches.ts:190 | `{{key}}` becomes `String(context[key] ?? '')`: for a key that is no own property, the text of the property inherited from `Object.prototype`, or "" when there is none; the loop ends there when that text has no "{{" |
| Template.ConditionalSubstitution | src/to-inches.ts:191 | `{{key?truthy:falsy}}` with plain branches becomes `truthy` when `context[key]` is truthy and `falsy` otherwise, and the loop ends there; a key that is no own property is truthy exactly when `Object.prototype` supplies it |
| Template.InheritedSubstitution | src/to-inches.ts:190-191 | over a context without those own keys, `{{constructor}}` prints "function Object() { [native code] }", `{{__proto__}}` prints "[object Object]" and `{{toString?a:b}}` gives `a` |
| Template.InheritedPlain | src/to-inches.ts:190-192 | the text of an inherited property holds no "{{", so its substitution ends the loop |
| Substitution.TextItemMeaning | src/constants.ts:50 | the default string template renders the value; then the fraction when it is truthy, after a space when the value is truthy too; then a space and the title when it is truthy |
| Inches.MergeNothing | src/to-inches.ts:32-49 | with no options the defaults are kept |
| Inches.Over | src/to-inches.ts:32-48 | one field of a spread `{ ...below, ...top }`: a given field wins; spreading twice is spreading the layered field once, and repeating a spread changes nothing (`Inches.OverLayers`) |
| Inches.OverLayers | src/to-inches.ts:32-48 | a spread over a spread is one spread of the later field over the earlier; spreading nothing or the same field again keeps it |
| Inches.MergeUnit | src/to-inches.ts:32-34 | the spread of the caller's options of one unit over the current ones; stated by `Inches.MergeUnitLayers` and `Inches.MergePerUnit` |
| Inches.MergeUnitLayers | src/to-inches.ts:32-34 | merging one unit's options twice is one merge of the layered options, and merging nothing keeps them |
| Inches.MergeSet | src/to-inches.ts:35-48 | one `{ ...current, ...options?.templates?.[type] }`; stated by `Inches.MergeSetLayers` and `Inches.MergeTemplateFields` |
| Inches.MergeSetLayers | src/to-inches.ts:35-48 | merging a template set twice is one merge of the layered set, and merging an empty set keeps it |
| Inches.Merge | src/to-inches.ts:32-49 | the constructor's option merge: per-unit spreads, then template variants field by field; stated by the `Inches.Merge…` lemmas |
| Inches.InchOf | src/to-inches.ts:51-58 | the constructor: scale, take the sign, decompose; stated by `Inches.Constructed` and computed by the method `Inches.NewInch` |
| Inches.MergeTwice | src/to-inches.ts:32-49 | merging twice is one merge, with the later options laid over the earlier |
| Inches.MergeIdempotent | src/to-inches.ts:32-49 | merging the same options again changes nothing |
| Inches.MergePerUnit | src/to-inches.ts:32-34 | a unit's merged options depend only on what is given for that unit; a unit given nothing keeps its options |
| Inches.MergeTemplateFields | src/to-inches.ts:35-48 | a template variant is merged field by field: giving one field keeps the others, so overriding `templates.html.minus` keeps the html item template |
| Inches.NewInch | src/to-inches.ts:51-58 | the constructor returns `InchOf`: the merged options, the magnitude scaled to millimetres, its sign and the decomposition, or the error `#calculate` throws |
| Inches.Constructed | src/to-inches.ts:31-58 | the constructor fails exactly when no unit is retained, with "No minimal value found"; otherwise the inch holds the merged options, the scaled magnitude, `minus` exactly for a negative scaled magnitude, and the retained units as its sizes |
| Inches.ScaledSign | src/to-inches.ts:52-54 | scaling by the input multiplier keeps the sign and keeps zero at zero |
| Inches.Scaled | src/to-inches.ts:52 | `mm *= InputMultiplayer[input]`; stated by `Inches.ScaledSign` and `Inches.Constructed` |
| Inches.ZeroMagnitude | src/to-inches.ts:51-58 | an absent magnitude or 0 gives a non-negative inch with all counts, remainders and the fraction text zero or empty |
| Inches.Inch.Minimal | src/to-inches.ts:155-160 | on a constructed inch `#getMinimal` does not throw; it describes the last size, is marked last and is not required |
| Inches.ContextValues | src/to-inches.ts:205-222 | the render context has these entries: the value, shown even when 0 for a required unit and truthy exactly when non-zero; the title and the class; the minus sign for a negative value; the fraction text, only for a unit that shows the fraction. Each text entry is truthy exactly when it is non-empty |
| Inches.BaseContext | src/to-inches.ts:205-216 | the render context before the fraction is set; its entries are stated by `Inches.ContextValues` |
| Inches.RenderContext | src/to-inches.ts:205-222 | the render context with the fraction entry, through the fraction template when there is one; stated by `Inches.ContextValues` |
| Inches.ShownFraction | src/to-inches.ts:218-222 | `context.fraction` of a unit that shows the fraction: the fraction template over the context with `fraction` set, or `this.fraction`; stated by `Inches.ContextValues` |
| Inches.Shown | src/to-inches.ts:203 | the visibility guard of `#render`: a non-zero value, a shown non-empty fraction, or `required`; stated by `Inches.DefaultTextShown`, `Inches.ListedIsShown` and `Inches.NothingRendered` |
| Inches.ContextKeys | src/to-inches.ts:207-216 | the render context's own keys lie among the eight of the object literal (`denominator` is no own key when the fraction text has no '/') |
| Inches.InheritedInContext | src/to-inches.ts:187-222 | the render context is a plain object, so `{{constructor}}` prints the `Object` function, `{{__proto__}}` prints "[object Object]" and `{{toString?a:b}}` takes `a`, for every inch and unit |
| Inches.RenderText | src/to-inches.ts:199-227 | `#render` with a string template; stated by `Inches.DefaultTextItem`, `Inches.DefaultTextShown` and `Inches.NothingRendered` |
| Inches.RenderArray | src/to-inches.ts:199-227 | `#render` with an array template, each element expanded over the same context; stated by `Inches.DefaultFallbackParts` and `Inches.NothingRendered` |
| Inches.ExpandAll | src/to-inches.ts:225 | `itemTemplate.map(template => this.#processTemplate(template, context))`: one expansion per template, in order, over the same context |
| Inches.Required | src/to-inches.ts:237 | `{ ...this.#getMinimal(), required: true }` is the minimal unit, marked required |
| Inches.DefaultTextItem | src/to-inches.ts:199-227 | under the default string template `#render` gives "" for a hidden unit; otherwise the value, then the fraction when shown (after a space when the value is non-zero), then a space and the title |
| Inches.DefaultTextShown | src/to-inches.ts:203 | under the default string template a unit renders to non-empty text exactly when its value is non-zero, it shows a non-empty fraction, or it is required |
| Inches.RenderSizes | src/to-inches.ts:229-241 | `#renderSizes(type)`; stated by `Inches.RenderSizesCases` and `Inches.RenderSizesFallback` |
| Inches.UnitTexts | src/to-inches.ts:231-232 | `sizes.map(({ key }) => this.#render(this.#getInfo(key), …))`: one rendering per size, in order; stated by its ensures and `Inches.RenderSizesCases` |
| Inches.SignPrefix | src/to-inches.ts:240 | `this.minus ? (minus ?? '-') : ''`; stated by `Inches.SignViews` and `Inches.RenderSizesCases` |
| Inches.SignViews | src/to-inches.ts:240-262 | the views mark a negative value and only a negative value: `parts()` pushes exactly the parts set's `minus ?? '-'`, the prefix `#renderSizes` gives that set, and with no `minus` given the prefix is '-' |
| Inches.ToString | src/to-inches.ts:243-245 | `toString()`, the string view; stated by `Inches.ToStringNonEmpty` and `Inches.ToStringUnitShown` |
| Inches.Html | src/to-inches.ts:298-300 | `html()`, the html view; covered only by the general `Inches.RenderSizesCases` and `Inches.RenderSizesFallback` |
| Inches.RenderSizesCases | src/to-inches.ts:229-241 | a view is the minus marker for a negative value (default '-'), then either the non-empty unit renderings joined by the joiner (default ' '), or the required minimal unit when no unit rendered |
| Inches.RenderSizesFallback | src/to-inches.ts:236-240 | when no unit renders, the view is the sign and the required minimal unit |
| Inches.ToStringNonEmpty | src/to-inches.ts:243-245 | under the default string template `toString()` is never empty |
| Inches.ToStringUnitShown | src/to-inches.ts:229-245 | under the default string template a unit appears in `toString()` exactly when it is among the sizes and is shown |
| Inches.PushUnits | src/to-inches.ts:264-267 | the `forEach` loop appends each unit's parts in the order of the sizes |
| Inches.PartsAsWritten | src/to-inches.ts:258-275 | `parts()` as written, with the `!result.length` test after the minus marker; stated by `Inches.PartsAsWrittenDiffers` |
| Inches.PartsOf | src/to-inches.ts:258-275 | `parts()` with the fallback decided on the units' parts alone (see Findings); computed by the method `Inches.Parts` |
| Inches.Parts | src/to-inches.ts:258-275 | `parts()` is the minus marker for a negative value, then the units' parts, or the required minimal unit's parts when the units gave none (corrected; see Findings) |
| Inches.GatheredEmpty | src/to-inches.ts:264-269 | the units' parts are empty exactly when every unit gives none |
| Inches.Gathered | src/to-inches.ts:264-267 | what the `forEach` pushes for the first n sizes; computed by the method `Inches.PushUnits` and stated by `Inches.GatheredEmpty` |
| Inches.UnitPart | src/to-inches.ts:265 | `clean(this.#render(this.#getInfo(key), itemTemplate))`; stated by `Inches.UnitPartShape` |
| Inches.UnitPartShape | src/to-inches.ts:203-265 | a unit `#render` hides pushes nothing, and no unit pushes an empty string |
| Inches.PartOf | src/to-inches.ts:264-266 | the `forEach` callback, as a function of the key; stated by `Inches.UnitPartsEmpty` |
| Inches.UnitParts | src/to-inches.ts:264-267 | all the sizes push; stated by `Inches.UnitPartsEmpty` and `Inches.PartsWithoutUnits` |
| Inches.UnitPartsEmpty | src/to-inches.ts:264-267 | the units push nothing exactly when each size's unit pushes nothing |
| Inches.SignParts | src/to-inches.ts:262 | `if (this.minus) result.push(minus ?? '-')`; stated by `Inches.SignViews` and `Inches.PartsAsWrittenDiffers` |
| Inches.FallbackParts | src/to-inches.ts:269-272 | the clean rendering of the required minimal unit; stated by `Inches.DefaultFallbackParts` and `Inches.PartsWithoutUnits` |
| Inches.PartsWithoutUnits | src/to-inches.ts:262-272 | when no unit pushes anything, the corrected `parts()` is the sign and then the fallback; as written it is only the sign for a negative value and the fallback otherwise |
| Inches.Coerce | src/to-inches.ts:260 | `isNaN(Number(value)) ? value : Number(value)`, with `numeric` standing for `Number` on the texts it accepts; stated by `Inches.TenthBelowZeroViews` |
| Inches.Clean | src/to-inches.ts:260 | the `clean` closure: `filter(Boolean)`, then `Inches.Coerce` on each entry; stated by `Inches.DefaultFallbackParts` and `Inches.NothingRendered` |
| Inches.UnitItems | src/to-inches.ts:278-286 | the units' records of `items()`; stated by `Inches.UnitItemsShape` |
| Inches.Items | src/to-inches.ts:277-296 | `items()`; stated by `Inches.ItemsShape` and `Inches.ListedIsShown` |
| Inches.PartsAsWrittenDiffers | src/to-inches.ts:262-272 | `parts()` as written differs from the corrected one exactly when the value is negative, no unit gives a part and the fallback is not empty; it then returns the minus marker alone |
| Inches.DefaultFallbackParts | src/to-inches.ts:269-272 | under the default parts template the fallback is never empty and starts with the minimal unit's value |
| Inches.UnitItemsShape | src/to-inches.ts:278-286 | the units' records are never the sign record, and there are none exactly when no unit is listed |
| Inches.ItemsShape | src/to-inches.ts:277-296 | `items()` is never empty; it starts with the sign record exactly for a negative value and holds no other sign record; it holds the listed units, or the minimal unit with value 0 when none is listed |
| Inches.ListedIsShown | src/to-inches.ts:281 | `items()` lists a non-required unit exactly when `#render` shows it |
| Inches.Listed | src/to-inches.ts:281 | the filter `info.value \|\| (info.hasFraction && this.fraction)`; stated by `Inches.ListedIsShown` |
| Inches.ItemOf | src/to-inches.ts:282-285 | the record `{ type: title ?? key, value, fraction? }`; stated by `Inches.ItemsShape` and `Inches.TenthBelowZeroViews` |
| Inches.NothingRendered | src/to-inches.ts:203 | with all counts 0 and no fraction, no unit renders text, parts or records, so every view falls back to the minimal unit |
| Inches.TenthBelowZeroViews | src/to-inches.ts:243-296 | for −0.1 mm under the defaults: `toString()` is "-0 in"; `items()` is the sign record then inches with value 0; `parts()` as written is `['-']`, and corrected it is the marker, then "0" and "in" each through `numeric`; with `numeric` reading "0" as 0 and refusing "in", as `isNaN(Number(…))` does, that is `['-', 0, 'in']` |
| JsText.NumberToString | src/to-inches.ts:190 | `String(number)`: a whole number below 1e21 in magnitude prints as its decimal integer; the model writes larger ones the same way (see Left out) |
| JsText.NatToString | src/to-inches.ts:172 | `String(n)` for a natural number: digits only, no leading zero, and `Number` reads it back as n (`JsText.ParseNatToString`) |
| JsText.ParseNatToString | src/to-inches.ts:74 | `Number(String(n))` is n |
| JsText.ParseNat | src/to-inches.ts:74 | `Number(s)` of a digit string; stated by `JsText.ParseNatToString`, `JsText.ParseNatLeadingZeros` and `JsText.ParseNatZeros` |
| JsText.IntToString | src/to-inches.ts:172 | `String(i)` for an integer; its minus sign appears exactly for a negative integer, and the digits read back as the magnitude (`JsText.IntToStringParses`) |
| JsText.IntToStringParses | src/to-inches.ts:172 | `String(i)` starts with '-' exactly when i < 0, and `Number` of its digits gives back \|i\| |
| JsText.Split | src/to-inches.ts:206 | `split('/')`: always at least one piece; a text without the separator is one piece, and a separator ends the first piece (`JsText.SplitNoSeparator`, `JsText.SplitFirst`) |
| JsText.Join | src/to-inches.ts:234 | `join(joiner)`; of non-empty pieces it is empty exactly when there are none (`JsText.JoinNonEmpty`) |
| JsText.NonEmpty | src/to-inches.ts:233 | `filter(Boolean)` on strings: no longer than its input, no empty entry, and empty exactly when every input is empty |

## Left out

- Floating point: lengths are exact reals. The model has no IEEE-754
  rounding, apart from the source's own 1e-15 residue cut-off, which is
  modelled.
- Precisions are decimals: whole numbers, and numbers strictly between 0
  and 1 in plain decimal notation (at least 1e-6).
  - Non-whole precisions above 1 (`10 ** 1.5`) are not modelled.
  - Negative non-whole precisions are not modelled.
  - Precisions that `String` prints in exponent form are not modelled.
- The denominator is a positive integer. A denominator of 0, which the
  source turns into "NaN/NaN", is not modelled.
- The `numeric` parameter of `parts` stands for `isNaN(Number(value))`.
  JavaScript's number parsing is not modelled.
- `JsText.NumberToString`: numbers JavaScript prints in exponent form (a
  magnitude of at least 1e21, or a non-whole magnitude below 1e-6, such as
  "1e+21" or "1e-7") are written out positionally, and a non-whole number
  gets at most 20 digits after the point instead of JavaScript's shortest
  round-trip digits. The model's numbers are exact reals, so the digits the
  double would give are not there to reproduce.
- The regular-expression engine is replaced by scanners for the two
  patterns. `lastIndex` of the global `.test` calls is not modelled: each
  `replace` resets it, so it does not change the result.
- `Template.InheritedText`: prints built-in functions in the form V8 uses,
  "function name() { [native code] }"; other engines may lay out that text
  differently.
- `Template.Expand`: the `do … while` loop runs at most 65 passes
  (`MaxPasses` + 1). The source repeats without bound; a template whose
  values keep producing placeholders loops forever there.
- Option objects are records of optional fields.
  - An option given explicitly as `undefined` is not modelled; the spread
    would copy it over the default.
  - Keys from outside the option shape are not modelled.
- Not modelled:
  - `toJSON`;
  - the `mm`, `precise` and `reminders` getters;
  - `Object.assign` of the counts onto the instance (the model reads them
    from `calculated.accurate`);
  - the unused `#sign` field;
  - the `toInches` dispatch between a number and an options object.
  Each only copies fields the model already holds.
- Inches.Parts: `parts()` never passes a fraction template to `#render`,
  and the model follows that.
- Inches.Items: the `unshift` calls on the array are modelled as building
  a new sequence.
- Inches.Html: only the general rendering lemmas cover it. Nothing is
  proved about the text the default html template produces.
- Decomposition.CalculateConserves: states conservation only when every
  retained unit floors or takes `true`. A numeric option can round up and
  overshoot, so the bound does not hold in general.
- Decomposition.CalculateRebuilds: has the same restriction, for the same
  reason.
- Decomposition.CalculateRoundTrip: has the same restriction, for the same
  reason.
- Substitution.TextItemMeaning: requires shown values, fractions and titles
  without '{'. The fraction and the title must also have no ':' or
  backslash. With such characters the lazy patterns match other spans.
- Inches.DefaultTextItem: requires a title that is plain in the same sense.
- Inches.ToStringNonEmpty: requires plain titles in the same sense.
- Inches.ToStringUnitShown: requires plain titles in the same sense.
- Inches.DefaultTextShown: requires a plain title, without ':', '{' or
  backslash, and a fraction text of number characters (every constructed
  inch has one, by `Inches.CalculateFractionIsText`). A title with such
  characters can make the lazy patterns match other spans.

## Findings

| source | as written | input that shows it | evidently intended | confidence | as-written member | corrected member |
|---|---|---|---|---|---|---|
| src/to-inches.ts:262-272 | `parts()` pushes the minus marker before the `!result.length` test, so a negative value at which no unit renders passes the test with the marker alone and skips the fallback | `new Inch(-0.1).parts()` gives `['-']`; `toString()` gives "-0 in" and `items()` gives the sign then `{type: 'in', value: 0}` | decide the fallback on the units' parts alone, as `#renderSizes` and `items` do, giving `['-', 0, 'in']` | not executed | Inches.PartsAsWritten (shown by Inches.PartsAsWrittenDiffers and Inches.TenthBelowZeroViews) | Inches.PartsOf, computed by Inches.Parts |

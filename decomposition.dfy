/** The decomposition of a length into imperial units: `#getSizes` picks the
    units that take part, `#calculate` allocates the inch count over them
    greedily, `#getInfo` and `#getMinimal` describe one unit of the result. */
module Decomposition {
  import opened Wrappers
  import opened Rounding
  import opened Interfaces
  import opened Constants
  import opened Fractions

  /** The keys of a list of sizes, in order. */
  function Keys(sizes: seq<Size>): (ks: seq<Unit>)
    ensures |ks| == |sizes|
    ensures forall i :: 0 <= i < |sizes| ==> ks[i] == sizes[i].key
  {
    if sizes == [] then [] else [sizes[0].key] + Keys(sizes[1..])
  }

  lemma {:induction false} KeysAppend(a: seq<Size>, b: seq<Size>)
    ensures Keys(a + b) == Keys(a) + Keys(b)
  {
  }

  /** Every size is an enabled unit carrying its inch divisor. */
  predicate FromOptions(sizes: seq<Size>, options: Options) {
    forall i :: 0 <= i < |sizes| ==>
      options.Unit(sizes[i].key).enabled && sizes[i].value == RawDivider(sizes[i].key) as real
  }

  /** The units appear in `Order`, each at most once. */
  predicate Ascending(sizes: seq<Size>) {
    forall i, j :: 0 <= i < j < |sizes| ==> Rank(sizes[i].key) < Rank(sizes[j].key)
  }

  /** Only the last unit may have a truthy fraction option. */
  predicate StopsAtFraction(sizes: seq<Size>, options: Options) {
    forall i :: 0 <= i < |sizes| - 1 ==> !Truthy(options.Unit(sizes[i].key).fraction)
  }

  predicate Positive(sizes: seq<Size>) {
    forall i :: 0 <= i < |sizes| ==> sizes[i].value > 0.0
  }

  /** The walk of `#getSizes` over the units still to visit: push the unit when
      it is enabled, stop after it when its fraction option is truthy. */
  function Walk(order: seq<Unit>, options: Options): (r: seq<Size>)
    ensures FromOptions(r, options) && Positive(r)
  {
    if order == [] then []
    else
      var u := order[0];
      Pushed(u, options) + (if Truthy(options.Unit(u).fraction) then [] else Walk(order[1..], options))
  }

  /** The units `#getSizes` returns, with their divisors. */
  function Retained(options: Options): seq<Size> {
    Walk(Order, options)
  }

  /** `#getSizes`: the `while (hasSense && order.length)` loop. */
  method GetSizes(options: Options) returns (sizes: seq<Size>)
    ensures sizes == Retained(options)
  {
    sizes := [];
    var hasSense := true;
    var order := Order;
    ghost var target := Walk(order, options);
    while hasSense && |order| > 0
      invariant hasSense ==> sizes + Walk(order, options) == target
      invariant !hasSense ==> sizes == target
      decreases |order|
    {
      ghost var visited, done := order, sizes;
      var key := order[0];
      order := order[1..];
      ghost var head := Pushed(key, options);
      if options.Unit(key).enabled {
        sizes := sizes + [Size(key, RawDivider(key) as real)];
      }
      assert sizes == done + head;
      if Truthy(options.Unit(key).fraction) {
        hasSense := false;
      } else {
        Concat(done, head, Walk(order, options));
      }
    }
  }

  /** What `#getSizes` pushes for one unit. */
  function Pushed(u: Unit, options: Options): seq<Size> {
    if options.Unit(u).enabled then [Size(u, RawDivider(u) as real)] else []
  }

  lemma Concat(a: seq<Size>, b: seq<Size>, c: seq<Size>)
    ensures (a + b) + c == a + (b + c)
  {
  }

  /** The walk from position k of `Order` keeps units of rank k and above, in
      order, and stops at the first truthy fraction option. */
  lemma {:induction false} WalkShape(k: nat, options: Options)
    requires k <= |Order|
    ensures var r := Walk(Order[k..], options);
      Ascending(r) && StopsAtFraction(r, options) &&
      forall i :: 0 <= i < |r| ==> Rank(r[i].key) >= k
    decreases |Order| - k
  {
    if k < |Order| {
      var u := Order[k];
      assert Rank(u) == k;
      assert Order[k..][1..] == Order[k + 1..];
      WalkShape(k + 1, options);
    }
  }

  /** No unit ranked from lo up to before hi has a truthy fraction option. */
  predicate Clear(options: Options, lo: nat, hi: nat) {
    forall v :: lo <= Rank(v) < hi ==> !Truthy(options.Unit(v).fraction)
  }

  /** Clearing from rank k splits into the unit of rank k and the ranks after it. */
  lemma ClearFrom(options: Options, k: nat, hi: nat)
    requires k < hi && k < |Order|
    ensures Clear(options, k, hi) <==>
      !Truthy(options.Unit(Order[k]).fraction) && Clear(options, k + 1, hi)
  {
    assert Rank(Order[k]) == k;
  }

  /** The walk from position k is what it pushes for the unit of rank k, then,
      unless that unit's fraction option is truthy, the walk from k + 1. */
  lemma WalkSplit(k: nat, options: Options)
    requires k < |Order|
    ensures var w := Order[k];
      Keys(Walk(Order[k..], options)) ==
        Keys(Pushed(w, options)) +
        Keys(if Truthy(options.Unit(w).fraction) then [] else Walk(Order[k + 1..], options))
  {
    var w := Order[k];
    assert Order[k..][1..] == Order[k + 1..];
    var head := Pushed(w, options);
    var tail := if Truthy(options.Unit(w).fraction) then [] else Walk(Order[k + 1..], options);
    assert Walk(Order[k..], options) == head + tail;
    KeysAppend(head, tail);
  }

  /** A unit is in the walk from position k exactly when its rank is at least k,
      it is enabled, and no unit ranked from k up to before it has a truthy
      fraction option. */
  lemma {:induction false} WalkHas(k: nat, options: Options, u: Unit)
    requires k <= |Order|
    ensures u in Keys(Walk(Order[k..], options)) <==>
      (Rank(u) >= k && options.Unit(u).enabled && Clear(options, k, Rank(u)))
    decreases |Order| - k
  {
    if k < |Order| {
      WalkSplit(k, options);
      WalkHas(k + 1, options, u);
      HasStep(k, options, u, Keys(Walk(Order[k + 1..], options)), Keys(Walk(Order[k..], options)));
    } else {
      assert Rank(u) < k;
    }
  }

  /** The step of `WalkHas`, on the keys of the walk from k + 1 (`rest`) and
      from k (`whole`). */
  lemma HasStep(k: nat, options: Options, u: Unit, rest: seq<Unit>, whole: seq<Unit>)
    requires k < |Order|
    requires whole == Keys(Pushed(Order[k], options)) + (if Truthy(options.Unit(Order[k]).fraction) then [] else rest)
    requires u in rest <==> (Rank(u) >= k + 1 && options.Unit(u).enabled && Clear(options, k + 1, Rank(u)))
    ensures u in whole <==> (Rank(u) >= k && options.Unit(u).enabled && Clear(options, k, Rank(u)))
  {
    var w := Order[k];
    assert Rank(w) == k;
    var head := Keys(Pushed(w, options));
    assert u in head <==> u == w && options.Unit(w).enabled;
    if u == w {
      assert u !in rest;
    } else if Rank(u) >= k {
      assert Rank(u) > k;
      ClearFrom(options, k, Rank(u));
    }
  }

  /** `#getSizes` yields a subsequence of `Order` made of enabled units, each
      with its divisor, where only the last one can have a truthy fraction
      option; a unit is retained exactly when it is enabled and no larger unit
      has a truthy fraction option. */
  lemma RetainedShape(options: Options)
    ensures var r := Retained(options);
      FromOptions(r, options) && Ascending(r) && StopsAtFraction(r, options) &&
      forall u :: u in Keys(r) <==>
        (options.Unit(u).enabled && forall v :: Rank(v) < Rank(u) ==> !Truthy(options.Unit(v).fraction))
  {
    assert Order[0..] == Order;
    WalkShape(0, options);
    forall u ensures u in Keys(Retained(options)) <==>
        (options.Unit(u).enabled && forall v :: Rank(v) < Rank(u) ==> !Truthy(options.Unit(v).fraction))
    {
      WalkHas(0, options, u);
      assert Clear(options, 0, Rank(u)) <==> forall v :: Rank(v) < Rank(u) ==> !Truthy(options.Unit(v).fraction);
    }
  }

  /** The default options retain all four units with their divisors. */
  lemma DefaultRetained()
    ensures Retained(DefaultOptions) ==
      [Size(Miles, 63360.0), Size(Yards, 36.0), Size(Feet, 12.0), Size(Inches, 1.0)]
  {
    assert Order[1..] == [Yards, Feet, Inches];
    assert Order[1..][1..] == [Feet, Inches];
    assert Order[1..][1..][1..] == [Inches];
    assert Walk([Inches], DefaultOptions) == [Size(Inches, 1.0)];
    assert Walk([Feet, Inches], DefaultOptions) == [Size(Feet, 12.0), Size(Inches, 1.0)];
    assert Walk([Yards, Feet, Inches], DefaultOptions) ==
      [Size(Yards, 36.0), Size(Feet, 12.0), Size(Inches, 1.0)];
  }

  // ---------------------------------------------------------------------
  // #calculate

  /** `Math.abs` */
  function RealAbs(x: real): (r: real)
    ensures r >= 0.0 && (r == x || r == -x)
  {
    if x < 0.0 then -x else x
  }

  /** Below this the remaining inch count is taken to be float residue. */
  const ResidueLimit: real := 0.000000000000001

  /** The running state of the `#calculate` loop: the inches still to allocate
      and the two records it fills in. */
  datatype State = State(raw: real, accurate: Length, reminders: Length)

  /** The state before the loop: |mm| / 25.4 inches, nothing allocated. */
  function Start(mm: real): (s: State)
    ensures s.raw >= 0.0 && s.raw * MmPerInch == RealAbs(mm)
    ensures s.accurate == ZeroLength && s.reminders == ZeroLength
  {
    State(RealAbs(mm) / MmPerInch, ZeroLength, ZeroLength)
  }

  /** The count a unit takes of `value` of itself under its fraction option. */
  function Allocation(f: FractionValue, value: real): real {
    if !Truthy(f) then Floor(value) as real
    else if f == Bool(true) then value
    else Round(value, Some(if f == Fraction then Decimal(0, 0) else f.precision))
  }

  /** Falsy options and 'fraction' take the whole part of the value (the floor),
      `true` takes all of it, and a numeric option takes the nearest multiple of
      1 / multiplier, as `Inch.round` does. */
  lemma AllocationCases(f: FractionValue, value: real)
    ensures var r := Allocation(f, value);
      (!Truthy(f) || f == Fraction ==> r == r.Floor as real && r <= value < r + 1.0) &&
      (f == Bool(true) ==> r == value) &&
      (Truthy(f) && f.Number? ==> NearestOnGrid(r, value, Multiplier(f.precision)))
  {
    if Truthy(f) && f != Bool(true) {
      RoundCases(value, Some(if f == Fraction then Decimal(0, 0) else f.precision));
    }
  }

  /** One pass of the loop body for one retained unit. */
  function Step(s: State, size: Size, options: Options): (r: State)
    requires size.value > 0.0
    ensures r.raw >= 0.0 && (r.raw == 0.0 || r.raw >= ResidueLimit)
    ensures var value := s.raw / size.value;
      r.accurate.Get(size.key) == Allocation(options.Unit(size.key).fraction, value) &&
      r.reminders.Get(size.key) == value - r.accurate.Get(size.key)
    ensures forall u :: u != size.key ==>
      r.accurate.Get(u) == s.accurate.Get(u) && r.reminders.Get(u) == s.reminders.Get(u)
  {
    var value := s.raw / size.value;
    var whole := Allocation(options.Unit(size.key).fraction, value);
    var raw := s.raw - whole * size.value;
    State(if raw < ResidueLimit then 0.0 else raw, s.accurate.Set(size.key, whole), s.reminders.Set(size.key, value - whole))
  }

  /** The body of the `#calculate` loop for one unit: take `value` of the unit
      as its fraction option allows, record the allocation and the remainder,
      and take the allocation off `raw`, dropping float residue. */
  method TakeUnit(raw: real, accurate: Length, reminders: Length, unit: Size, options: Options)
    returns (raw': real, accurate': Length, reminders': Length)
    requires unit.value > 0.0
    ensures State(raw', accurate', reminders') == Step(State(raw, accurate, reminders), unit, options)
  {
    var key, size := unit.key, unit.value;
    var value := raw / size;
    var whole := Allocation(options.Unit(key).fraction, value);
    accurate' := accurate.Set(key, whole);
    reminders' := reminders.Set(key, value - whole);
    raw' := raw - whole * size;
    if raw' < ResidueLimit {
      raw' := 0.0;
    }
  }

  /** The loop of `#calculate` from position i of `sizes`; it stops early once
      nothing is left to allocate. */
  function Allocate(sizes: seq<Size>, i: nat, options: Options, s: State): State
    requires Positive(sizes) && i <= |sizes|
    decreases |sizes| - i
  {
    if i == |sizes| || s.raw == 0.0 then s
    else Allocate(sizes, i + 1, options, Step(s, sizes[i], options))
  }

  /** `precise`: the signed length in each unit. */
  function Precise(mm: real): Length {
    Length(mm / 1609344.0, mm / 914.4, mm / 304.8, mm / 25.4)
  }

  /** `precise` is one signed length in every unit: each entry times that
      unit's divisor is mm / 25.4 inches. */
  lemma PreciseInUnits(mm: real)
    ensures forall u :: Precise(mm).Get(u) * RawDivider(u) as real == mm / MmPerInch
  {
    forall u ensures Precise(mm).Get(u) * RawDivider(u) as real == mm / MmPerInch {
      match u
      case Miles => assert mm / 1609344.0 * 63360.0 == mm / 25.4;
      case Yards => assert mm / 914.4 * 36.0 == mm / 25.4;
      case Feet => assert mm / 304.8 * 12.0 == mm / 25.4;
      case Inches =>
    }
  }

  /** `sizes[index].value = accurate[key]` for every index. */
  function Overwritten(sizes: seq<Size>, accurate: Length): (r: seq<Size>)
    ensures |r| == |sizes|
    ensures forall i :: 0 <= i < |sizes| ==> r[i] == Size(sizes[i].key, accurate.Get(sizes[i].key))
  {
    seq(|sizes|, i requires 0 <= i < |sizes| => Size(sizes[i].key, accurate.Get(sizes[i].key)))
  }

  lemma OverwrittenIs(sizes: seq<Size>, accurate: Length, r: seq<Size>)
    requires |r| == |sizes|
    requires forall j :: 0 <= j < |r| ==> r[j] == Size(sizes[j].key, accurate.Get(sizes[j].key))
    ensures r == Overwritten(sizes, accurate)
  {
  }

  /** The message of the error `#getMinimal` throws. */
  const NoMinimal := "No minimal value found"

  /** What `#calculate(mm)` returns, or the error it throws. At this point of
      the constructor `this[key]` and `this.fraction` are not assigned yet;
      only the key and the fraction option of the minimal unit are read. */
  function CalculateSpec(mm: real, options: Options): Result<Calculated, string> {
    var sizes := Retained(options);
    var s := Allocate(sizes, 0, options, Start(mm));
    match GetMinimal(sizes, options, ZeroLength, "")
    case None => Failure(NoMinimal)
    case Some(minimal) =>
      var fraction :=
        if options.Unit(minimal.key).enabled && minimal.fraction == Fraction
        then CalculateFraction(s.reminders.Get(minimal.key), options.denominator)
        else "";
      Success(Calculated(Precise(mm), s.accurate, s.reminders, fraction, Overwritten(sizes, s.accurate)))
  }

  lemma CalculateSpecFails(mm: real, options: Options)
    requires Retained(options) == []
    ensures CalculateSpec(mm, options) == Failure(NoMinimal)
  {
  }

  lemma CalculateSpecIs(mm: real, options: Options, sizes: seq<Size>, s: State, minimal: KeyInfo, fraction: string)
    requires sizes == Retained(options) && s == Allocate(sizes, 0, options, Start(mm))
    requires GetMinimal(sizes, options, ZeroLength, "") == Some(minimal)
    requires fraction ==
      if options.Unit(minimal.key).enabled && minimal.fraction == Fraction
      then CalculateFraction(s.reminders.Get(minimal.key), options.denominator)
      else ""
    ensures CalculateSpec(mm, options) ==
      Success(Calculated(Precise(mm), s.accurate, s.reminders, fraction, Overwritten(sizes, s.accurate)))
  {
  }

  /** `#calculate(mm)`: the greedy loop over the retained units, the fraction of
      the minimal unit, and the in-place overwrite of the sizes. */
  method Calculate(mm: real, options: Options) returns (r: Result<Calculated, string>)
    ensures r == CalculateSpec(mm, options)
  {
    var raw := RealAbs(mm) / 25.4;
    var sizes := GetSizes(options);
    var precise := Precise(mm);
    var accurate := ZeroLength;
    var reminders := ZeroLength;
    ghost var outcome := Allocate(sizes, 0, options, Start(mm));
    var i := 0;
    while i < |sizes|
      invariant 0 <= i <= |sizes|
      invariant Allocate(sizes, i, options, State(raw, accurate, reminders)) == outcome
    {
      if raw == 0.0 {
        break;
      }
      raw, accurate, reminders := TakeUnit(raw, accurate, reminders, sizes[i], options);
      i := i + 1;
    }
    assert State(raw, accurate, reminders) == outcome;

    var minimal := GetMinimal(sizes, options, ZeroLength, "");
    if minimal.None? {
      CalculateSpecFails(mm, options);
      return Failure(NoMinimal);
    }
    var fraction := "";
    if options.Unit(minimal.value.key).enabled && minimal.value.fraction == Fraction {
      fraction := CalculateFraction(reminders.Get(minimal.value.key), options.denominator);
    }

    var result := OverwriteSizes(sizes, accurate);
    CalculateSpecIs(mm, options, sizes, outcome, minimal.value, fraction);
    return Success(Calculated(precise, accurate, reminders, fraction, result));
  }

  /** The `sizes.forEach(({key}, index) => sizes[index].value = accurate[key])`
      step of `#calculate`. */
  method OverwriteSizes(sizes: seq<Size>, accurate: Length) returns (result: seq<Size>)
    ensures result == Overwritten(sizes, accurate)
  {
    result := sizes;
    var index := 0;
    while index < |result|
      invariant 0 <= index <= |result| == |sizes|
      invariant forall j :: 0 <= j < index ==> result[j] == Size(sizes[j].key, accurate.Get(sizes[j].key))
      invariant forall j :: index <= j < |result| ==> result[j] == sizes[j]
    {
      result := result[index := Size(result[index].key, accurate.Get(result[index].key))];
      index := index + 1;
    }
    OverwrittenIs(sizes, accurate, result);
  }

  /** The policies under which a unit never takes more than it is offered:
      floor (a falsy option or 'fraction') and `true`. */
  predicate Takes(f: FractionValue) {
    !Truthy(f) || f == Fraction || f == Bool(true)
  }

  predicate NoOvershoot(sizes: seq<Size>, options: Options) {
    forall j :: 0 <= j < |sizes| ==> Takes(options.Unit(sizes[j].key).fraction)
  }

  /** Inches allocated to the units of `sizes` from position i on: the count of
      each unit times its size. */
  function Weighted(sizes: seq<Size>, i: nat, accurate: Length): real
    requires i <= |sizes|
    decreases |sizes| - i
  {
    if i == |sizes| then 0.0
    else accurate.Get(sizes[i].key) * sizes[i].value + Weighted(sizes, i + 1, accurate)
  }

  lemma {:induction false} WeightedZero(sizes: seq<Size>, i: nat, accurate: Length)
    requires i <= |sizes|
    requires forall j :: i <= j < |sizes| ==> accurate.Get(sizes[j].key) == 0.0
    ensures Weighted(sizes, i, accurate) == 0.0
    decreases |sizes| - i
  {
    if i < |sizes| {
      WeightedZero(sizes, i + 1, accurate);
    }
  }

  lemma WeightedHead(sizes: seq<Size>, i: nat, accurate: Length, whole: real)
    requires i < |sizes| && accurate.Get(sizes[i].key) == whole
    ensures Weighted(sizes, i, accurate) == whole * sizes[i].value + Weighted(sizes, i + 1, accurate)
  {
  }

  /** The loop leaves alone every unit it does not visit. */
  lemma {:induction false} AllocateKeeps(sizes: seq<Size>, i: nat, options: Options, s: State, u: Unit)
    requires Positive(sizes) && i <= |sizes|
    requires forall j :: i <= j < |sizes| ==> sizes[j].key != u
    ensures var f := Allocate(sizes, i, options, s);
      f.accurate.Get(u) == s.accurate.Get(u) && f.reminders.Get(u) == s.reminders.Get(u)
    decreases |sizes| - i
  {
    if i < |sizes| && s.raw != 0.0 {
      AllocateKeeps(sizes, i + 1, options, Step(s, sizes[i], options), u);
    }
  }

  /** Under a non-overshooting policy a unit takes at most what is left, and
      what it leaves is less than one of the unit. */
  lemma TakeBounds(f: FractionValue, raw: real, size: real)
    requires Takes(f) && raw >= 0.0 && size > 0.0
    ensures WithinUnit(raw, Allocation(f, raw / size) * size, size)
  {
    var value := raw / size;
    AllocationCases(f, value);
    assert Below(Allocation(f, value), value);
    Leftover(raw, size, value, Allocation(f, value));
  }

  /** `whole` is at most `value` and less than one below it. */
  predicate Below(whole: real, value: real) {
    whole <= value < whole + 1.0
  }

  lemma LessThanOne(x: real, size: real)
    requires 0.0 <= x < 1.0 && size > 0.0
    ensures 0.0 <= x * size < size
  {
    assert size - x * size == (1.0 - x) * size;
  }

  lemma Leftover(raw: real, size: real, value: real, whole: real)
    requires size > 0.0 && value == raw / size && Below(whole, value)
    ensures WithinUnit(raw, whole * size, size)
  {
    assert value * size == raw;
    assert raw - whole * size == (value - whole) * size;
    LessThanOne(value - whole, size);
  }

  /** `portion` is less than one unit short of `raw`, and no more than it. */
  predicate WithinUnit(raw: real, portion: real, size: real) {
    0.0 <= raw - portion < size
  }

  /** `next` is what `raw` leaves after `portion`, with float residue dropped. */
  predicate Clamped(raw: real, portion: real, next: real) {
    next == if raw - portion < ResidueLimit then 0.0 else raw - portion
  }

  /** `taken` plus `last` is `raw`, up to a dropped residue below 1e-15. */
  predicate Conserved(raw: real, taken: real, last: real) {
    last >= 0.0 && taken <= raw &&
    (last == raw - taken || (last == 0.0 && raw - taken < ResidueLimit))
  }

  /** What one step takes off `raw` and what it keeps of it. */
  lemma StepFacts(s: State, size: Size, options: Options)
    requires size.value > 0.0 && s.raw >= 0.0 && Takes(options.Unit(size.key).fraction)
    ensures var portion := Portion(s, size, options);
      WithinUnit(s.raw, portion, size.value) && Clamped(s.raw, portion, Step(s, size, options).raw)
  {
    TakeBounds(options.Unit(size.key).fraction, s.raw, size.value);
  }


  /** One unit's share of the balance: `raw` on entry, `portion` taken by the
      unit, `next` left after the clamp, `rest` taken by the later units and
      `last` left at the end; `final` says the unit is the last one, of size
      `bound`. */
  lemma Balance(raw: real, portion: real, size: real, next: real, rest: real, last: real, final: bool, bound: real)
    requires WithinUnit(raw, portion, size) && Clamped(raw, portion, next)
    requires next == 0.0 ==> rest == 0.0 && last == 0.0
    requires Conserved(next, rest, last)
    requires final ==> last == next && size == bound
    requires !final ==> last < bound
    ensures Conserved(raw, portion + rest, last) && last < bound
  {
  }

  /** The inches one step takes off `raw`: the unit's new count times its size. */
  function Portion(s: State, size: Size, options: Options): real
    requires size.value > 0.0
  {
    Step(s, size, options).accurate.Get(size.key) * size.value
  }

  /** The inches the loop takes off `raw` from position i on: each visited
      unit's count times its size. */
  function Taken(sizes: seq<Size>, i: nat, options: Options, s: State): real
    requires Positive(sizes) && i <= |sizes|
    decreases |sizes| - i
  {
    if i == |sizes| || s.raw == 0.0 then 0.0
    else Portion(s, sizes[i], options) + Taken(sizes, i + 1, options, Step(s, sizes[i], options))
  }

  lemma TakenHead(sizes: seq<Size>, i: nat, options: Options, s: State)
    requires Positive(sizes) && i < |sizes| && s.raw != 0.0
    ensures Taken(sizes, i, options, s) == Portion(s, sizes[i], options) + Taken(sizes, i + 1, options, Step(s, sizes[i], options))
  {
  }

  /** The loop conserves inches: under policies that never overshoot, what it
      takes from position i on plus what is left equals the inches on entry,
      except that a residue below 1e-15 may be dropped, and what is left is
      less than one of the last unit. */
  lemma {:induction false} Conservation(sizes: seq<Size>, i: nat, options: Options, s: State)
    requires Positive(sizes) && NoOvershoot(sizes, options)
    requires i <= |sizes| && s.raw >= 0.0
    ensures var f := Allocate(sizes, i, options, s);
      Conserved(s.raw, Taken(sizes, i, options, s), f.raw) &&
      (i < |sizes| ==> f.raw < sizes[|sizes| - 1].value)
    decreases |sizes| - i
  {
    if i < |sizes| && s.raw != 0.0 {
      var t := Step(s, sizes[i], options);
      StepFacts(s, sizes[i], options);
      Conservation(sizes, i + 1, options, t);
      ConservationStep(sizes, i, options, s);
    }
  }

  /** The step of `Conservation`: the unit at position i takes its portion and
      the later units the rest. */
  lemma ConservationStep(sizes: seq<Size>, i: nat, options: Options, s: State)
    requires Positive(sizes) && i < |sizes| && s.raw > 0.0
    requires var t := Step(s, sizes[i], options);
      var portion := Portion(s, sizes[i], options);
      WithinUnit(s.raw, portion, sizes[i].value) && Clamped(s.raw, portion, t.raw) &&
      Conserved(t.raw, Taken(sizes, i + 1, options, t), Allocate(sizes, i + 1, options, t).raw) &&
      (i + 1 < |sizes| ==> Allocate(sizes, i + 1, options, t).raw < sizes[|sizes| - 1].value)
    ensures var f := Allocate(sizes, i, options, s);
      Conserved(s.raw, Taken(sizes, i, options, s), f.raw) && f.raw < sizes[|sizes| - 1].value
  {
    var t := Step(s, sizes[i], options);
    var f := Allocate(sizes, i + 1, options, t);
    var rest := Taken(sizes, i + 1, options, t);
    var final := i + 1 == |sizes|;
    if t.raw == 0.0 || final {
      assert f == t && rest == 0.0;
    }
    TakenHead(sizes, i, options, s);
    Balance(s.raw, Portion(s, sizes[i], options), sizes[i].value, t.raw, rest, f.raw, final, sizes[|sizes| - 1].value);
  }

  /** With distinct units that start at zero, what the loop takes is the
      weighted sum of the final counts. */
  lemma {:induction false} TakenWeighted(sizes: seq<Size>, i: nat, options: Options, s: State)
    requires Positive(sizes) && Ascending(sizes) && i <= |sizes|
    requires forall j :: i <= j < |sizes| ==> s.accurate.Get(sizes[j].key) == 0.0
    ensures Taken(sizes, i, options, s) == Weighted(sizes, i, Allocate(sizes, i, options, s).accurate)
    decreases |sizes| - i
  {
    if i == |sizes| {
    } else if s.raw == 0.0 {
      WeightedZero(sizes, i, s.accurate);
    } else {
      var key := sizes[i].key;
      var t := Step(s, sizes[i], options);
      LaterKeys(sizes, i);
      TakenWeighted(sizes, i + 1, options, t);
      var f := Allocate(sizes, i + 1, options, t);
      AllocateKeeps(sizes, i + 1, options, t, key);
      WeightedHead(sizes, i, f.accurate, t.accurate.Get(key));
    }
  }

  /** Later units differ from the one at position i, and so start at zero. */
  lemma LaterKeys(sizes: seq<Size>, i: nat)
    requires Ascending(sizes) && i < |sizes|
    ensures forall j :: i < j < |sizes| ==> sizes[j].key != sizes[i].key
  {
    forall j | i < j < |sizes| ensures sizes[j].key != sizes[i].key {
      assert Rank(sizes[i].key) < Rank(sizes[j].key);
    }
  }

  /** Every unit's count is its policy's allocation of its count plus its
      remainder: the two records agree unit by unit. */
  predicate Coherent(accurate: Length, reminders: Length, options: Options) {
    forall u :: accurate.Get(u) == Allocation(options.Unit(u).fraction, accurate.Get(u) + reminders.Get(u))
  }

  /** Nothing offered, nothing taken, under every policy. */
  lemma AllocationZero(f: FractionValue)
    ensures Allocation(f, 0.0) == 0.0
  {
    if Truthy(f) && f.Number? {
      assert JsRound(0.0 * Multiplier(f.precision)) == 0;
    }
  }

  lemma {:induction false} AllocateCoherent(sizes: seq<Size>, i: nat, options: Options, s: State)
    requires Positive(sizes) && i <= |sizes| && Coherent(s.accurate, s.reminders, options)
    ensures var f := Allocate(sizes, i, options, s); Coherent(f.accurate, f.reminders, options)
    decreases |sizes| - i
  {
    if i < |sizes| && s.raw != 0.0 {
      var t := Step(s, sizes[i], options);
      var key := sizes[i].key;
      assert t.accurate.Get(key) + t.reminders.Get(key) == s.raw / sizes[i].value;
      AllocateCoherent(sizes, i + 1, options, t);
    }
  }

  lemma StartCoherent(mm: real, options: Options)
    ensures Coherent(ZeroLength, ZeroLength, options)
  {
    forall u ensures Allocation(options.Unit(u).fraction, 0.0) == 0.0 {
      AllocationZero(options.Unit(u).fraction);
    }
  }

  // ---------------------------------------------------------------------
  // #getInfo, #getMinimal

  /** `Array.prototype.findIndex` on the keys: the first position of `key`, or -1. */
  function FindIndex(sizes: seq<Size>, key: Unit): (i: int)
    ensures -1 <= i < |sizes|
    ensures i >= 0 ==> sizes[i].key == key && forall j :: 0 <= j < i ==> sizes[j].key != key
    ensures i == -1 <==> key !in Keys(sizes)
  {
    if sizes == [] then -1
    else if sizes[0].key == key then 0
    else
      var k := FindIndex(sizes[1..], key);
      if k < 0 then -1 else k + 1
  }

  /** `#getInfo(key, sizes)`: null for a unit that is not in `sizes`, otherwise
      its position, whether it is the last one, whether it shows the fraction,
      its value, title, class and fraction option. `values` and `fraction` are
      `this[key]` and `this.fraction`. */
  function GetInfo(key: Unit, sizes: seq<Size>, options: Options, values: Length, fraction: string): (r: Option<KeyInfo>)
    ensures r.None? <==> key !in Keys(sizes)
    ensures r.Some? ==>
      var info := r.value;
      info.key == key && 0 <= info.index < |sizes| && sizes[info.index].key == key &&
      (info.isLast <==> info.index == |sizes| - 1) &&
      (info.hasFraction <==> Truthy(options.Unit(key).fraction) && info.isLast && fraction != "") &&
      info.value == values.Get(key) && !info.required
  {
    var index := FindIndex(sizes, key);
    if index < 0 then None
    else
      var uo := options.Unit(key);
      var isLast := |sizes| - 1 == index;
      Some(KeyInfo(key, index, isLast, Truthy(uo.fraction) && isLast && fraction != "",
        values.Get(key), uo.title, uo.className, uo.fraction, false))
  }

  /** `#getMinimal(sizes)`: the info of the last unit of `sizes`, or of inches
      when `sizes` is empty; null is the thrown 'No minimal value found'. */
  function GetMinimal(sizes: seq<Size>, options: Options, values: Length, fraction: string): (r: Option<KeyInfo>)
    ensures r.None? <==> sizes == []
    ensures r.Some? ==> r.value.key == sizes[|sizes| - 1].key
  {
    var key := if |sizes| > 0 then sizes[|sizes| - 1].key else Order[|Order| - 1];
    GetInfo(key, sizes, options, values, fraction)
  }

  /** On distinct units `#getMinimal` describes the last position: it is the
      one unit that can show the fraction. */
  lemma MinimalIsLast(sizes: seq<Size>, options: Options, values: Length, fraction: string)
    requires Ascending(sizes) && sizes != []
    ensures var m := GetMinimal(sizes, options, values, fraction);
      m.Some? && m.value.index == |sizes| - 1 && m.value.isLast
  {
    LaterKeys(sizes, FindIndex(sizes, sizes[|sizes| - 1].key));
  }

  // ---------------------------------------------------------------------
  // What #calculate promises

  /** `#calculate` throws exactly when no unit is retained, that is when no
      unit is enabled before the first truthy fraction option. */
  lemma CalculateFails(mm: real, options: Options)
    ensures CalculateSpec(mm, options).Failure? <==> Retained(options) == []
    ensures CalculateSpec(mm, options).Failure? ==> CalculateSpec(mm, options).error == NoMinimal
    ensures Retained(options) == [] <==>
      forall u :: options.Unit(u).enabled ==> exists v :: Rank(v) < Rank(u) && Truthy(options.Unit(v).fraction)
  {
    RetainedShape(options);
    var r := Retained(options);
    if r != [] {
      var u := r[0].key;
      assert u in Keys(r);
    } else {
      forall u | options.Unit(u).enabled
        ensures exists v :: Rank(v) < Rank(u) && Truthy(options.Unit(v).fraction)
      {
        assert u !in Keys(r);
      }
    }
  }

  /** A unit that is not retained keeps a zero count and a zero remainder. */
  lemma CalculateUnretained(mm: real, options: Options, u: Unit)
    requires CalculateSpec(mm, options).Success? && u !in Keys(Retained(options))
    ensures CalculateSpec(mm, options).value.accurate.Get(u) == 0.0
    ensures CalculateSpec(mm, options).value.reminders.Get(u) == 0.0
  {
    AllocateKeeps(Retained(options), 0, options, Start(mm), u);
  }

  /** On success the counts and remainders are those of the greedy walk. */
  lemma CalculateState(mm: real, options: Options)
    requires CalculateSpec(mm, options).Success?
    ensures var c := CalculateSpec(mm, options).value;
      var s := Allocate(Retained(options), 0, options, Start(mm));
      c.accurate == s.accurate && c.reminders == s.reminders && Retained(options) != []
  {
  }

  /** A coherent state is whole and below one remainder under a floor policy,
      and exact under `true`. */
  lemma CoherentCases(accurate: Length, reminders: Length, options: Options)
    requires Coherent(accurate, reminders, options)
    ensures forall u :: !Truthy(options.Unit(u).fraction) || options.Unit(u).fraction == Fraction ==>
      accurate.Get(u) == accurate.Get(u).Floor as real && 0.0 <= reminders.Get(u) < 1.0
    ensures forall u :: options.Unit(u).fraction == Bool(true) ==> reminders.Get(u) == 0.0
  {
    forall u ensures var f := options.Unit(u).fraction;
      (!Truthy(f) || f == Fraction ==> accurate.Get(u) == accurate.Get(u).Floor as real && 0.0 <= reminders.Get(u) < 1.0) &&
      (f == Bool(true) ==> reminders.Get(u) == 0.0)
    {
      AllocationCases(options.Unit(u).fraction, accurate.Get(u) + reminders.Get(u));
    }
  }

  /** Every unit's count is what its policy takes of count plus remainder; so
      under a floor policy (a falsy option or 'fraction') the count is whole
      and the remainder lies in [0, 1), and under `true` the remainder is 0. */
  lemma CalculateCoherent(mm: real, options: Options)
    requires CalculateSpec(mm, options).Success?
    ensures var c := CalculateSpec(mm, options).value;
      Coherent(c.accurate, c.reminders, options)
    ensures var c := CalculateSpec(mm, options).value;
      forall u :: !Truthy(options.Unit(u).fraction) || options.Unit(u).fraction == Fraction ==>
        c.accurate.Get(u) == c.accurate.Get(u).Floor as real && 0.0 <= c.reminders.Get(u) < 1.0
    ensures var c := CalculateSpec(mm, options).value;
      forall u :: options.Unit(u).fraction == Bool(true) ==> c.reminders.Get(u) == 0.0
  {
    var c := CalculateSpec(mm, options).value;
    CalculateState(mm, options);
    StartCoherent(mm, options);
    AllocateCoherent(Retained(options), 0, options, Start(mm));
    CoherentCases(c.accurate, c.reminders, options);
  }

  /** What `Conserved` says once the leftover is below a unit of at least one inch. */
  lemma ConservedBound(raw: real, taken: real, last: real, bound: real)
    requires Conserved(raw, taken, last) && last < bound && bound >= 1.0
    ensures 0.0 <= raw - taken < bound
  {
  }

  /** The greedy allocation is exact up to the last unit: when no retained
      unit has a numeric option, the retained counts times their divisors add
      up to |mm| / 25.4 inches minus less than one last unit. */
  lemma CalculateConserves(mm: real, options: Options)
    requires CalculateSpec(mm, options).Success?
    requires NoOvershoot(Retained(options), options)
    ensures var sizes := Retained(options);
      var taken := Weighted(sizes, 0, CalculateSpec(mm, options).value.accurate);
      var inches := RealAbs(mm) / MmPerInch;
      0.0 <= inches - taken < RawDivider(sizes[|sizes| - 1].key) as real
  {
    CalculateState(mm, options);
    RetainedConserves(mm, options);
  }

  lemma RetainedConserves(mm: real, options: Options)
    requires NoOvershoot(Retained(options), options) && Retained(options) != []
    ensures var sizes := Retained(options);
      var taken := Weighted(sizes, 0, Allocate(sizes, 0, options, Start(mm)).accurate);
      0.0 <= Start(mm).raw - taken < RawDivider(sizes[|sizes| - 1].key) as real
  {
    RetainedAscending(options);
    GreedyConserves(Retained(options), options, mm);
  }

  lemma RetainedAscending(options: Options)
    ensures Ascending(Retained(options))
  {
    assert Order[0..] == Order;
    WalkShape(0, options);
  }

  /** The greedy loop over distinct units, started on |mm| / 25.4 inches,
      leaves less than one last unit of them. */
  lemma GreedyConserves(sizes: seq<Size>, options: Options, mm: real)
    requires FromOptions(sizes, options) && Positive(sizes) && Ascending(sizes)
    requires NoOvershoot(sizes, options) && sizes != []
    ensures var taken := Weighted(sizes, 0, Allocate(sizes, 0, options, Start(mm)).accurate);
      0.0 <= Start(mm).raw - taken < RawDivider(sizes[|sizes| - 1].key) as real
  {
    var s0 := Start(mm);
    var f := Allocate(sizes, 0, options, s0);
    var last := sizes[|sizes| - 1];
    assert last.value == RawDivider(last.key) as real;
    Conservation(sizes, 0, options, s0);
    TakenWeighted(sizes, 0, options, s0);
    ConservedBound(s0.raw, Taken(sizes, 0, options, s0), f.raw, last.value);
  }

  /** `taken` plus `rest` falls short of `raw` by less than 1e-15. */
  predicate Short(raw: real, taken: real, rest: real) {
    0.0 <= raw - taken - rest < ResidueLimit
  }

  /** The counts from position i on, with the last unit's remainder times its
      size, rebuild `raw` up to one dropped residue below 1e-15. */
  predicate Rebuilt(sizes: seq<Size>, i: nat, raw: real, accurate: Length, reminders: Length)
    requires i <= |sizes| && sizes != []
  {
    var last := sizes[|sizes| - 1];
    Short(raw, Weighted(sizes, i, accurate), reminders.Get(last.key) * last.value)
  }

  /** The last unit's remainder, times its size, is what the loop leaves
      before the clamp: started from position i, what the loop takes plus
      that remainder falls short of the inches on entry by less than 1e-15.
      The whole shortfall is one dropped residue, since a clamp to zero ends
      the loop. */
  lemma {:induction false} LastRemainder(sizes: seq<Size>, i: nat, options: Options, s: State)
    requires Positive(sizes) && Ascending(sizes) && NoOvershoot(sizes, options)
    requires i < |sizes| && s.raw >= 0.0 && s.reminders.Get(sizes[|sizes| - 1].key) == 0.0
    ensures var last := sizes[|sizes| - 1];
      Short(s.raw, Taken(sizes, i, options, s), Share(Allocate(sizes, i, options, s), last))
    decreases |sizes| - i
  {
    var last := sizes[|sizes| - 1];
    if s.raw == 0.0 {
      assert Allocate(sizes, i, options, s) == s && Taken(sizes, i, options, s) == 0.0;
    } else {
      var t := Step(s, sizes[i], options);
      StepFacts(s, sizes[i], options);
      if i < |sizes| - 1 && t.raw != 0.0 {
        LaterKeys(sizes, i);
        assert t.reminders.Get(last.key) == 0.0;
        LastRemainder(sizes, i + 1, options, t);
      }
      LastRemainderStep(sizes, i, options, s);
    }
  }

  /** The step of `LastRemainder`: the unit at position i takes its portion;
      then the loop ends, on the last unit or at a clamp, or the later units
      take the rest. */
  lemma LastRemainderStep(sizes: seq<Size>, i: nat, options: Options, s: State)
    requires Positive(sizes) && Ascending(sizes) && i < |sizes| && s.raw > 0.0
    requires s.reminders.Get(sizes[|sizes| - 1].key) == 0.0
    requires var t := Step(s, sizes[i], options);
      var portion := Portion(s, sizes[i], options);
      var last := sizes[|sizes| - 1];
      s.raw - portion >= 0.0 && Clamped(s.raw, portion, t.raw) &&
      (i < |sizes| - 1 && t.raw != 0.0 ==>
        Short(t.raw, Taken(sizes, i + 1, options, t), Share(Allocate(sizes, i + 1, options, t), last)))
    ensures var last := sizes[|sizes| - 1];
      Short(s.raw, Taken(sizes, i, options, s), Share(Allocate(sizes, i, options, s), last))
  {
    var last := sizes[|sizes| - 1];
    var t := Step(s, sizes[i], options);
    var f := Allocate(sizes, i + 1, options, t);
    var taken := Taken(sizes, i + 1, options, t);
    AllocateHead(sizes, i, options, s);
    TakenHead(sizes, i, options, s);
    if i == |sizes| - 1 {
      ShareOfLast(sizes, options, s);
      ShortLast(s.raw, Portion(s, sizes[i], options), Share(f, last));
    } else {
      if t.raw == 0.0 {
        ShareAtClamp(sizes, i, options, s);
      }
      ShortClamp(s.raw, Portion(s, sizes[i], options), t.raw, taken, Share(f, last));
    }
  }

  /** On the last unit the loop ends, and the unit's remainder stands for all
      the step leaves. */
  lemma ShareOfLast(sizes: seq<Size>, options: Options, s: State)
    requires Positive(sizes) && sizes != []
    ensures var i := |sizes| - 1;
      var t := Step(s, sizes[i], options);
      Allocate(sizes, i + 1, options, t) == t && Taken(sizes, i + 1, options, t) == 0.0 &&
      Share(t, sizes[i]) == s.raw - Portion(s, sizes[i], options)
  {
    RemainderTimesUnit(s, sizes[|sizes| - 1], options);
  }

  /** A clamp to zero before the last unit ends the loop with the last unit's
      remainder still zero. */
  lemma ShareAtClamp(sizes: seq<Size>, i: nat, options: Options, s: State)
    requires Positive(sizes) && Ascending(sizes) && i < |sizes| - 1
    requires s.reminders.Get(sizes[|sizes| - 1].key) == 0.0 && Step(s, sizes[i], options).raw == 0.0
    ensures var t := Step(s, sizes[i], options);
      Allocate(sizes, i + 1, options, t) == t && Taken(sizes, i + 1, options, t) == 0.0 &&
      Share(t, sizes[|sizes| - 1]) == 0.0
  {
    LaterKeys(sizes, i);
  }

  /** The inches a state's remainder of `last` stands for. */
  function Share(f: State, last: Size): real {
    f.reminders.Get(last.key) * last.value
  }

  lemma AllocateHead(sizes: seq<Size>, i: nat, options: Options, s: State)
    requires Positive(sizes) && i < |sizes| && s.raw != 0.0
    ensures Allocate(sizes, i, options, s) == Allocate(sizes, i + 1, options, Step(s, sizes[i], options))
  {
  }

  /** The last unit's step: its remainder accounts for all it leaves. */
  lemma ShortLast(raw: real, portion: real, rest: real)
    requires rest == raw - portion
    ensures Short(raw, portion + 0.0, rest)
  {
  }

  /** An earlier unit's step: either the clamp ends the loop with nothing more
      taken, or the later units carry on from `raw - portion`. */
  lemma ShortClamp(raw: real, portion: real, next: real, taken: real, rest: real)
    requires raw - portion >= 0.0 && Clamped(raw, portion, next)
    requires next == 0.0 ==> taken == 0.0 && rest == 0.0
    requires next != 0.0 ==> Short(next, taken, rest)
    ensures Short(raw, portion + taken, rest)
  {
  }

  /** A unit's new remainder times its size is what the step leaves of `raw`
      before the clamp. */
  lemma RemainderTimesUnit(s: State, size: Size, options: Options)
    requires size.value > 0.0
    ensures Share(Step(s, size, options), size) == s.raw - Portion(s, size, options)
  {
    var t := Step(s, size, options);
    StepShare(s.raw, size, t, Portion(s, size, options));
  }

  /** The same over any state whose remainder and count of `size` are those
      a step from `raw` records. */
  lemma StepShare(raw: real, size: Size, t: State, portion: real)
    requires size.value > 0.0
    requires t.reminders.Get(size.key) == raw / size.value - t.accurate.Get(size.key)
    requires portion == t.accurate.Get(size.key) * size.value
    ensures Share(t, size) == raw - portion
  {
    ShareAlgebra(raw, size.value, t.reminders.Get(size.key), t.accurate.Get(size.key));
  }

  lemma ShareAlgebra(raw: real, size: real, rem: real, whole: real)
    requires size > 0.0 && rem == raw / size - whole
    ensures rem * size == raw - whole * size
  {
    var value := raw / size;
    assert value * size == raw;
    assert rem * size == value * size - whole * size;
  }

  /** The greedy loop, started on |mm| / 25.4 inches, takes them all but the
      last unit's remainder, up to one dropped residue below 1e-15. */
  lemma GreedyRemainder(sizes: seq<Size>, options: Options, mm: real)
    requires FromOptions(sizes, options) && Positive(sizes) && Ascending(sizes)
    requires NoOvershoot(sizes, options) && sizes != []
    ensures var f := Allocate(sizes, 0, options, Start(mm));
      Rebuilt(sizes, 0, Start(mm).raw, f.accurate, f.reminders)
  {
    var s0 := Start(mm);
    LastRemainder(sizes, 0, options, s0);
    TakenWeighted(sizes, 0, options, s0);
  }

  lemma RetainedRemainder(mm: real, options: Options)
    requires NoOvershoot(Retained(options), options) && Retained(options) != []
    ensures var sizes := Retained(options);
      var f := Allocate(sizes, 0, options, Start(mm));
      Rebuilt(sizes, 0, Start(mm).raw, f.accurate, f.reminders)
  {
    RetainedAscending(options);
    GreedyRemainder(Retained(options), options, mm);
  }

  /** The counts and the minimal unit's remainder give the length back: when no
      retained unit has a numeric option, the counts times their divisors plus
      the remainder times the minimal unit's divisor are |mm| / 25.4 inches,
      short by less than 1e-15. */
  lemma CalculateRebuilds(mm: real, options: Options)
    requires CalculateSpec(mm, options).Success?
    requires NoOvershoot(Retained(options), options)
    ensures var c := CalculateSpec(mm, options).value;
      Retained(options) != [] && Rebuilt(Retained(options), 0, RealAbs(mm) / MmPerInch, c.accurate, c.reminders)
  {
    CalculateState(mm, options);
    RetainedRemainder(mm, options);
  }

  /** Rounding the remainder to a multiple of 1 / den moves it by at most half
      of that, so the rebuilt length moves by at most half of 1 / den of the
      unit. */
  lemma NearestShare(inches: real, taken: real, remainder: real, divisor: real, den: real)
    requires divisor > 0.0 && den > 0.0
    requires Short(inches, taken, remainder * divisor)
    ensures Near(inches, taken, remainder, divisor, den)
  {
    var q := JsRound(remainder * den);
    var e := remainder - q as real / den;
    assert e * den == remainder * den - q as real;
    assert -0.5 / den <= e < 0.5 / den;
    assert e * divisor == remainder * divisor - q as real / den * divisor;
    assert -(divisor / (2.0 * den)) <= e * divisor < divisor / (2.0 * den) by {
      assert (0.5 / den) * divisor == divisor / (2.0 * den);
    }
    var rebuilt := taken + q as real / den * divisor;
    assert inches - rebuilt == (inches - taken - remainder * divisor) + e * divisor;
    assert 0.0 <= inches - taken - remainder * divisor < ResidueLimit;
  }

  /** Rebuilt from the counts (`taken` inches) and the remainder rounded to
      a multiple of 1 / den, `inches` come back within half of 1 / den of a
      unit of size `divisor`, give or take a dropped residue below 1e-15. */
  predicate Near(inches: real, taken: real, remainder: real, divisor: real, den: real)
    requires den > 0.0
  {
    var rebuilt := taken + JsRound(remainder * den) as real / den * divisor;
    -(divisor / (2.0 * den)) <= inches - rebuilt < divisor / (2.0 * den) + ResidueLimit
  }

  /** The length in inches, rebuilt from the counts and the numerator
      `Math.round(remainder * den)` of the fraction `#calculateFraction` prints
      for the minimal unit (see `CalculateFractionOf`), is within half of
      1 / den of that unit. */
  lemma CalculateRoundTrip(mm: real, options: Options)
    requires CalculateSpec(mm, options).Success?
    requires NoOvershoot(Retained(options), options)
    ensures var c := CalculateSpec(mm, options).value;
      var sizes := Retained(options);
      var key := sizes[|sizes| - 1].key;
      Near(RealAbs(mm) / MmPerInch, Weighted(sizes, 0, c.accurate), c.reminders.Get(key),
        RawDivider(key) as real, options.denominator as real)
  {
    CalculateState(mm, options);
    RetainedRoundTrip(mm, options, options.denominator);
  }

  lemma RetainedRoundTrip(mm: real, options: Options, denominator: Denominator)
    requires NoOvershoot(Retained(options), options) && Retained(options) != []
    ensures var sizes := Retained(options);
      var f := Allocate(sizes, 0, options, Start(mm));
      var key := sizes[|sizes| - 1].key;
      Near(Start(mm).raw, Weighted(sizes, 0, f.accurate), f.reminders.Get(key), RawDivider(key) as real, denominator as real)
  {
    var sizes := Retained(options);
    var f := Allocate(sizes, 0, options, Start(mm));
    var last := sizes[|sizes| - 1];
    RetainedRemainder(mm, options);
    assert last.value == RawDivider(last.key) as real;
    NearestShare(Start(mm).raw, Weighted(sizes, 0, f.accurate), f.reminders.Get(last.key), last.value, denominator as real);
  }

  /** The fraction text is non-empty only for a minimal unit whose option is
      exactly 'fraction'; it is then `#calculateFraction` of that unit's
      remainder, which lies in [0, 1) (see `CalculateFractionCases`). */
  lemma CalculateFractionOf(mm: real, options: Options)
    requires CalculateSpec(mm, options).Success?
    ensures var c := CalculateSpec(mm, options).value;
      var sizes := Retained(options);
      var key := sizes[|sizes| - 1].key;
      (c.fraction != "" ==> options.Unit(key).fraction == Fraction) &&
      (options.Unit(key).fraction == Fraction ==>
        0.0 <= c.reminders.Get(key) < 1.0 &&
        c.fraction == CalculateFraction(c.reminders.Get(key), options.denominator))
  {
    CalculateFails(mm, options);
    CalculateCoherent(mm, options);
    RetainedShape(options);
  }

  /** The returned sizes keep the retained units in order, each now holding
      its count. */
  lemma CalculateSizes(mm: real, options: Options)
    requires CalculateSpec(mm, options).Success?
    ensures var c := CalculateSpec(mm, options).value;
      Keys(c.sizes) == Keys(Retained(options)) &&
      forall i :: 0 <= i < |c.sizes| ==> c.sizes[i].value == c.accurate.Get(c.sizes[i].key)
  {
  }

  // ---------------------------------------------------------------------
  // Worked examples

  /** A length shorter than a unit under a floor policy gives that unit a zero
      count and passes on unchanged. */
  lemma StepBelowUnit(s: State, size: Size, options: Options)
    requires size.value > 0.0 && ResidueLimit <= s.raw < size.value
    requires !Truthy(options.Unit(size.key).fraction) || options.Unit(size.key).fraction == Fraction
    ensures Step(s, size, options) ==
      State(s.raw, s.accurate.Set(size.key, 0.0), s.reminders.Set(size.key, s.raw / size.value))
  {
    var value := s.raw / size.value;
    FractionOfUnit(s.raw, size.value);
    AllocationCases(options.Unit(size.key).fraction, value);
    assert Allocation(options.Unit(size.key).fraction, value) == 0.0;
  }

  lemma FractionOfUnit(x: real, size: real)
    requires 0.0 <= x < size
    ensures 0.0 <= x / size < 1.0
  {
    assert x / size * size == x;
  }

  /** Under the step of `StepBelowUnit` a record of zero counts stays zero. */
  lemma PassBelow(s: State, size: Size, options: Options)
    requires size.value > 0.0 && ResidueLimit <= s.raw < size.value
    requires !Truthy(options.Unit(size.key).fraction) || options.Unit(size.key).fraction == Fraction
    requires s.accurate == ZeroLength
    ensures var t := Step(s, size, options);
      t.raw == s.raw && t.accurate == ZeroLength && t.reminders.Get(size.key) == s.raw / size.value
  {
    StepBelowUnit(s, size, options);
    var z := ZeroLength.Set(size.key, 0.0);
    assert z.Get(Miles) == 0.0 && z.Get(Yards) == 0.0 && z.Get(Feet) == 0.0 && z.Get(Inches) == 0.0;
  }

  /** Under the defaults a length below one inch (and above the residue
      limit) takes no whole unit: every count is zero and inches keeps the
      whole length as its remainder. */
  lemma BelowOneInch(mm: real)
    requires ResidueLimit * MmPerInch <= RealAbs(mm) < MmPerInch
    ensures var f := Allocate(Retained(DefaultOptions), 0, DefaultOptions, Start(mm));
      f.accurate == ZeroLength && f.reminders.Get(Inches) == RealAbs(mm) / MmPerInch
  {
    DefaultRetained();
    var sizes := Retained(DefaultOptions);
    var o := DefaultOptions;
    var t0 := Start(mm);
    assert ResidueLimit <= t0.raw < 1.0;
    PassBelow(t0, sizes[0], o);
    var t1 := Step(t0, sizes[0], o);
    PassBelow(t1, sizes[1], o);
    var t2 := Step(t1, sizes[1], o);
    PassBelow(t2, sizes[2], o);
    var t3 := Step(t2, sizes[2], o);
    PassBelow(t3, sizes[3], o);
    var t4 := Step(t3, sizes[3], o);
    assert Allocate(sizes, 3, o, t3) == t4;
    assert Allocate(sizes, 2, o, t2) == t4;
    assert Allocate(sizes, 1, o, t1) == t4;
    assert Allocate(sizes, 0, o, t0) == t4;
  }

  /** Under the defaults a length below one inch shows no whole unit. */
  lemma BelowOneInchCounts(mm: real)
    requires ResidueLimit * MmPerInch <= RealAbs(mm) < MmPerInch
    ensures CalculateSpec(mm, DefaultOptions).Success?
    ensures CalculateSpec(mm, DefaultOptions).value.accurate == ZeroLength
  {
    DefaultRetained();
    CalculateFails(mm, DefaultOptions);
    CalculateState(mm, DefaultOptions);
    BelowOneInch(mm);
  }

  /** Under the defaults the fraction is that of the inches' remainder. */
  lemma DefaultFraction(mm: real)
    requires CalculateSpec(mm, DefaultOptions).Success?
    ensures var c := CalculateSpec(mm, DefaultOptions).value;
      c.fraction == CalculateFraction(c.reminders.Get(Inches), 16)
  {
    DefaultRetained();
    CalculateFractionOf(mm, DefaultOptions);
  }

  /** One millimetre under the defaults is 1/16 inch and nothing else. */
  lemma OneMillimetre()
    ensures CalculateSpec(1.0, DefaultOptions).Success?
    ensures CalculateSpec(1.0, DefaultOptions).value.accurate == ZeroLength
    ensures CalculateSpec(1.0, DefaultOptions).value.fraction == "1/16"
  {
    BelowOneInchCounts(1.0);
    CalculateState(1.0, DefaultOptions);
    BelowOneInch(1.0);
    DefaultFraction(1.0);
    OneMillimetreFraction();
  }
}

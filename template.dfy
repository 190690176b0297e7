/** `#processTemplate`: the placeholder language of the templates. One pass
    replaces every `{{key}}` (the pattern `{{(\w+)}}`) and then every
    `{{key?truthy:falsy}}` (the pattern `{{(\w+)(?:\?((?:\\:|[^:{])*?):([^{]*?))?}}`),
    each scan running left to right as a global `String.prototype.replace`
    does; passes repeat while either pattern still matches. Both patterns
    are matched by hand-written scanners that try the alternatives in the
    order the backtracking regular-expression engine tries them. */
module Template {
  import opened Wrappers
  import opened JsText

  /** A value of the render context: a string or a number. */
  datatype Value = Text(s: string) | Num(x: real)

  /** `Record<string, string | number>`: the own properties of a plain
      object literal. A key that is missing (or holds `undefined`) is absent
      from the map; the render contexts hold no inherited name as such a key. */
  type Context = map<string, Value>

  /** The names `Object.prototype` gives every plain object that `\w+` can
      spell, besides `__proto__`: all of them are methods. */
  const InheritedMethods: seq<string> := [
    "constructor", "hasOwnProperty", "isPrototypeOf", "propertyIsEnumerable",
    "toLocaleString", "toString", "valueOf",
    "__defineGetter__", "__defineSetter__", "__lookupGetter__", "__lookupSetter__"]

  /** A key that a plain object literal inherits from `Object.prototype`. */
  predicate Inherited(key: string) {
    key == "__proto__" || key in InheritedMethods
  }

  /** `String` of an inherited property: `Object.prototype` itself prints as
      "[object Object]", `constructor` is `Object`, and every other method is
      a native function of its own name. */
  function InheritedText(key: string): string {
    if key == "__proto__" then "[object Object]"
    else if key == "constructor" then NativeFunction("Object")
    else NativeFunction(key)
  }

  /** `String` of a built-in function: "function name() { [native code] }". */
  function NativeFunction(name: string): string {
    "function " + name + "() " + NativeBody
  }

  const NativeBody: string := "{ [native code] }"

  /** JavaScript truthiness of `context[key]`: "" and 0 are falsy, and so is
      an absent key, unless it is inherited (an object or a function). */
  predicate Truthy(ctx: Context, key: string) {
    if key in ctx then
      match ctx[key]
      case Text(s) => s != ""
      case Num(x) => x != 0.0
    else Inherited(key)
  }

  /** `String(context[key] ?? '')`: an own value, an inherited property's
      text, or "" when the key is neither. */
  function Show(ctx: Context, key: string): string {
    if key in ctx then
      match ctx[key]
      case Text(s) => s
      case Num(x) => NumberToString(x)
    else if Inherited(key) then InheritedText(key)
    else ""
  }

  /** `\w`: an ASCII letter, a digit or the underscore. */
  predicate WordChar(c: char) {
    ('a' <= c <= 'z') || ('A' <= c <= 'Z') || ('0' <= c <= '9') || c == '_'
  }

  predicate IsWord(key: string) {
    |key| > 0 && forall k :: 0 <= k < |key| ==> WordChar(key[k])
  }

  /** The end of the longest run of word characters starting at i. */
  function WordEnd(s: string, i: nat): (j: nat)
    requires i <= |s|
    ensures i <= j <= |s|
    ensures forall k :: i <= k < j ==> WordChar(s[k])
    ensures j == |s| || !WordChar(s[j])
    decreases |s| - i
  {
    if i < |s| && WordChar(s[i]) then WordEnd(s, i + 1) else i
  }

  lemma SliceWord(s: string, a: nat, b: nat)
    requires a < b <= |s| && forall k :: a <= k < b ==> WordChar(s[k])
    ensures IsWord(s[a..b])
  {
    forall k | 0 <= k < b - a ensures WordChar(s[a..b][k]) {
      assert s[a..b][k] == s[a + k];
    }
  }

  /** The run of word characters from i ends at the first non-word character j. */
  lemma {:induction false} WordEndAt(s: string, i: nat, j: nat)
    requires i <= j < |s| && !WordChar(s[j]) && forall k :: i <= k < j ==> WordChar(s[k])
    ensures WordEnd(s, i) == j
    decreases j - i
  {
    if i < j {
      WordEndAt(s, i + 1, j);
    }
  }

  /** "{{" at position i. */
  predicate OpensAt(s: string, i: int) {
    0 <= i && i + 1 < |s| && s[i] == '{' && s[i + 1] == '{'
  }

  /** "}}" at position i. */
  predicate ClosesAt(s: string, i: int) {
    0 <= i && i + 1 < |s| && s[i] == '}' && s[i + 1] == '}'
  }

  /** No "{{" anywhere: no placeholder of either kind can start. */
  predicate Plain(s: string) {
    forall i :: 0 <= i < |s| ==> !OpensAt(s, i)
  }

  // ---------------------------------------------------------------------
  // {{(\w+)}}

  /** A match of `{{(\w+)}}` at i: the end of the key, which is followed by "}}". */
  function SimpleAt(s: string, i: nat): (r: Option<nat>)
    requires i <= |s|
    ensures r.Some? ==> OpensAt(s, i) && i + 2 < r.value && ClosesAt(s, r.value) && IsWord(s[i + 2..r.value])
  {
    if !OpensAt(s, i) then None
    else
      var j := WordEnd(s, i + 2);
      if j > i + 2 && ClosesAt(s, j) then
        SliceWord(s, i + 2, j);
        Some(j)
      else None
  }

  /** `s.slice(i).replace(simpleRe, (_, key) => String(context[key] ?? ''))` */
  function ReplaceSimple(s: string, ctx: Context, i: nat): string
    requires i <= |s|
    decreases |s| - i
  {
    if i == |s| then ""
    else match SimpleAt(s, i)
      case Some(j) => Show(ctx, s[i + 2..j]) + ReplaceSimple(s, ctx, j + 2)
      case None => [s[i]] + ReplaceSimple(s, ctx, i + 1)
  }

  /** `simpleRe.test(s.slice(i))` */
  predicate HasSimple(s: string, i: nat)
    requires i <= |s|
    decreases |s| - i
  {
    i < |s| && (SimpleAt(s, i).Some? || HasSimple(s, i + 1))
  }

  // ---------------------------------------------------------------------
  // {{(\w+)(?:\?((?:\\:|[^:{])*?):([^{]*?))?}}

  /** The lazy `([^{]*?)}}` from q: the first "}}" that no '{' precedes. */
  function FalsyEnd(s: string, q: nat): (r: Option<nat>)
    requires q <= |s|
    ensures r.Some? ==> q <= r.value && ClosesAt(s, r.value) && forall k :: q <= k < r.value ==> s[k] != '{'
    decreases |s| - q
  {
    if ClosesAt(s, q) then Some(q)
    else if q < |s| && s[q] != '{' then FalsyEnd(s, q + 1)
    else None
  }

  /** The lazy `((?:\\:|[^:{])*?):([^{]*?)}}` from p, in backtracking order:
      first stop the truthy part here (a ':' followed by a falsy part), then
      extend it by an escaped "\:", then by one character other than ':' and
      '{'. The result is the position of the ':' and the end of the falsy part. */
  function TruthyEnd(s: string, p: nat): (r: Option<(nat, nat)>)
    requires p <= |s|
    ensures r.Some? ==>
      p <= r.value.0 < r.value.1 && ClosesAt(s, r.value.1) && s[r.value.0] == ':' &&
      forall k :: r.value.0 < k < r.value.1 ==> s[k] != '{'
    decreases |s| - p
  {
    var stop := if p < |s| && s[p] == ':' then FalsyEnd(s, p + 1) else None;
    if stop.Some? then Some((p, stop.value))
    else
      var escaped := if p + 1 < |s| && s[p] == '\\' && s[p + 1] == ':' then TruthyEnd(s, p + 2) else None;
      if escaped.Some? then escaped
      else if p < |s| && s[p] != ':' && s[p] != '{' then TruthyEnd(s, p + 1)
      else None
  }

  /** One match of the conditional pattern: the key, the two captured
      branches (None when the optional group did not take part) and the end
      of the match. */
  datatype Conditional = Conditional(key: string, branches: Option<(string, string)>, end: nat)

  /** A match of the conditional pattern at i: the optional group is tried
      first; without it the key must be followed by "}}". */
  function ConditionalAt(s: string, i: nat): (r: Option<Conditional>)
    requires i <= |s|
    ensures r.Some? ==> OpensAt(s, i) && i + 4 < r.value.end <= |s| && IsWord(r.value.key)
  {
    if !OpensAt(s, i) then None
    else
      var j := WordEnd(s, i + 2);
      if j == i + 2 then None
      else
        SliceWord(s, i + 2, j);
        var group := if j < |s| && s[j] == '?' then TruthyEnd(s, j + 1) else None;
        if group.Some? then
          var (t, f) := group.value;
          Some(Conditional(s[i + 2..j], Some((s[j + 1..t], s[t + 1..f])), f + 2))
        else if ClosesAt(s, j) then Some(Conditional(s[i + 2..j], None, j + 2))
        else None
  }

  /** `(_, key, truthy, falsy) => context[key] ? truthy : falsy`; when the
      group did not take part both are `undefined`, which `replace` prints. */
  function Choose(ctx: Context, c: Conditional): string {
    match c.branches
    case None => "undefined"
    case Some((truthy, falsy)) => if Truthy(ctx, c.key) then truthy else falsy
  }

  /** `s.slice(i).replace(conditionalRe, ...)` */
  function ReplaceConditional(s: string, ctx: Context, i: nat): string
    requires i <= |s|
    decreases |s| - i
  {
    if i == |s| then ""
    else match ConditionalAt(s, i)
      case Some(c) => Choose(ctx, c) + ReplaceConditional(s, ctx, c.end)
      case None => [s[i]] + ReplaceConditional(s, ctx, i + 1)
  }

  /** `conditionalRe.test(s.slice(i))` */
  predicate HasConditional(s: string, i: nat)
    requires i <= |s|
    decreases |s| - i
  {
    i < |s| && (ConditionalAt(s, i).Some? || HasConditional(s, i + 1))
  }

  // ---------------------------------------------------------------------
  // The do-while loop

  /** One iteration of the loop body. */
  function Pass(s: string, ctx: Context): string {
    var t := ReplaceSimple(s, ctx, 0);
    ReplaceConditional(t, ctx, 0)
  }

  /** The loop condition fails: neither pattern matches. */
  predicate Settled(s: string) {
    !HasSimple(s, 0) && !HasConditional(s, 0)
  }

  /** Passes the model runs at most; the source repeats without bound. */
  const MaxPasses: nat := 64

  // The do-while loop, for any step and any stop test.

  /** n steps, one after the other. */
  function Run(step: string -> string, s: string, n: nat): string
    decreases n
  {
    if n == 0 then s else Run(step, step(s), n - 1)
  }

  /** A do-while loop: step, then stop when `stop` holds or the fuel is spent. */
  function Loop(step: string -> string, stop: string -> bool, s: string, fuel: nat): string
    decreases fuel
  {
    var t := step(s);
    if stop(t) || fuel == 0 then t else Loop(step, stop, t, fuel - 1)
  }

  /** k steps are where the loop stops: the k-th is the first whose result
      satisfies the stop test, or the last one `fuel` allows. */
  predicate StopsAt(step: string -> string, stop: string -> bool, s: string, fuel: nat, k: nat) {
    1 <= k <= fuel + 1 &&
    (stop(Run(step, s, k)) || k == fuel + 1) &&
    forall m :: 1 <= m < k ==> !stop(Run(step, s, m))
  }

  /** The loop's result is that of its first k steps, and k is where it stops. */
  predicate StopsWith(step: string -> string, stop: string -> bool, s: string, fuel: nat, k: nat) {
    StopsAt(step, stop, s, fuel, k) && Loop(step, stop, s, fuel) == Run(step, s, k)
  }

  lemma RunFirst(step: string -> string, s: string, n: nat)
    ensures Run(step, s, n + 1) == Run(step, step(s), n)
  {
  }

  lemma StopsLater(step: string -> string, stop: string -> bool, s: string, fuel: nat, k: nat)
    requires fuel > 0 && !stop(step(s)) && StopsAt(step, stop, step(s), fuel - 1, k)
    ensures StopsAt(step, stop, s, fuel, k + 1)
  {
    RunFirst(step, s, k);
    forall m | 1 <= m < k + 1 ensures !stop(Run(step, s, m)) {
      RunFirst(step, s, m - 1);
    }
  }

  lemma {:induction false} LoopIsFirstStop(step: string -> string, stop: string -> bool, s: string, fuel: nat)
    ensures exists k :: StopsWith(step, stop, s, fuel, k)
    decreases fuel
  {
    var t := step(s);
    RunFirst(step, s, 0);
    if stop(t) || fuel == 0 {
      assert StopsWith(step, stop, s, fuel, 1);
    } else {
      LoopIsFirstStop(step, stop, t, fuel - 1);
      var k: nat :| StopsWith(step, stop, t, fuel - 1, k);
      RunFirst(step, s, k);
      StopsLater(step, stop, s, fuel, k);
      assert StopsWith(step, stop, s, fuel, k + 1);
    }
  }

  /** The do-while loop: one step, then stop when `stop` holds or the fuel is
      spent, otherwise go round again. */
  method DoWhile(step: string -> string, stop: string -> bool, s: string, fuel: nat) returns (r: string)
    ensures r == Loop(step, stop, s, fuel)
  {
    r := s;
    var left := fuel;
    while true
      invariant Loop(step, stop, r, left) == Loop(step, stop, s, fuel)
      decreases left
    {
      r := step(r);
      if stop(r) || left == 0 {
        return;
      }
      left := left - 1;
    }
  }

  /** One pass of the loop body, as a function value. */
  function PassWith(ctx: Context): string -> string {
    t => Pass(t, ctx)
  }

  /** The do-while loop of `#processTemplate` run for at most `fuel + 1` passes. */
  function Expand(s: string, ctx: Context, fuel: nat): string {
    Loop(PassWith(ctx), Settled, s, fuel)
  }

  /** One pass of the do-while loop, then either the loop ends or it goes on. */
  lemma ExpandOnce(s: string, ctx: Context, fuel: nat)
    ensures Settled(Pass(s, ctx)) || fuel == 0 ==> Expand(s, ctx, fuel) == Pass(s, ctx)
    ensures !Settled(Pass(s, ctx)) && fuel > 0 ==> Expand(s, ctx, fuel) == Expand(Pass(s, ctx), ctx, fuel - 1)
  {
    assert PassWith(ctx)(s) == Pass(s, ctx);
  }

  /** `#processTemplate(template, context)`: passes repeat while a placeholder is left. */
  method ProcessTemplate(template: string, ctx: Context) returns (r: string)
    ensures r == Expand(template, ctx, MaxPasses)
  {
    r := DoWhile(PassWith(ctx), Settled, template, MaxPasses);
  }

  // ---------------------------------------------------------------------
  // What #processTemplate promises

  /** A simple placeholder is also a match of the conditional pattern (with
      the optional group absent), so the loop repeats exactly while the
      conditional pattern matches. */
  lemma SimpleIsConditional(s: string, i: nat)
    requires i <= |s| && SimpleAt(s, i).Some?
    ensures ConditionalAt(s, i).Some? && ConditionalAt(s, i).value.branches.None?
  {
  }

  lemma {:induction false} HasSimpleHasConditional(s: string, i: nat)
    requires i <= |s| && HasSimple(s, i)
    ensures HasConditional(s, i)
    decreases |s| - i
  {
    if SimpleAt(s, i).Some? {
      SimpleIsConditional(s, i);
    } else {
      HasSimpleHasConditional(s, i + 1);
    }
  }

  lemma SettledIsNoConditional(s: string)
    ensures Settled(s) <==> !HasConditional(s, 0)
  {
    if HasSimple(s, 0) {
      HasSimpleHasConditional(s, 0);
    }
  }

  /** No "{{" at i or later. */
  predicate PlainFrom(s: string, i: nat) {
    forall k :: i <= k < |s| ==> !OpensAt(s, k)
  }

  lemma {:induction false} PlainSimple(s: string, ctx: Context, i: nat)
    requires PlainFrom(s, i) && i <= |s|
    ensures ReplaceSimple(s, ctx, i) == s[i..] && !HasSimple(s, i)
    decreases |s| - i
  {
    if i < |s| {
      assert !OpensAt(s, i);
      PlainSimple(s, ctx, i + 1);
      assert s[i..] == [s[i]] + s[i + 1..];
    }
  }

  lemma {:induction false} PlainConditional(s: string, ctx: Context, i: nat)
    requires PlainFrom(s, i) && i <= |s|
    ensures ReplaceConditional(s, ctx, i) == s[i..] && !HasConditional(s, i)
    decreases |s| - i
  {
    if i < |s| {
      assert !OpensAt(s, i);
      PlainConditional(s, ctx, i + 1);
      assert s[i..] == [s[i]] + s[i + 1..];
    }
  }

  /** A template without "{{" comes back unchanged after one pass. */
  lemma PlainUnchanged(s: string, ctx: Context, fuel: nat)
    requires Plain(s)
    ensures Pass(s, ctx) == s && Settled(s) && Expand(s, ctx, fuel) == s
  {
    PlainSimple(s, ctx, 0);
    PlainConditional(s, ctx, 0);
  }

  /** `#processTemplate` stops at the first pass whose result no pattern
      matches, or after `fuel + 1` passes none of which settled. */
  lemma ExpandIsFirstSettled(s: string, ctx: Context, fuel: nat)
    ensures exists k :: (StopsAt(PassWith(ctx), Settled, s, fuel, k) &&
      Expand(s, ctx, fuel) == Run(PassWith(ctx), s, k))
  {
    LoopIsFirstStop(PassWith(ctx), Settled, s, fuel);
  }

  /** The text of "{{" + key + "}}". */
  function Placeholder(key: string): string {
    "{{" + key + "}}"
  }

  /** `{{key}}` becomes `String(context[key])`: for a key that is not an own
      property, the inherited property's text, or "" when there is none; when
      that value has no "{{" the loop ends there. */
  lemma SimpleSubstitution(key: string, ctx: Context, fuel: nat)
    requires IsWord(key)
    ensures ReplaceSimple(Placeholder(key), ctx, 0) == Show(ctx, key)
    ensures key !in ctx ==> Show(ctx, key) == if Inherited(key) then InheritedText(key) else ""
    ensures Plain(Show(ctx, key)) ==> Expand(Placeholder(key), ctx, fuel) == Show(ctx, key)
  {
    var s := Placeholder(key);
    var j := 2 + |key|;
    assert s[2..j] == key;
    assert forall k :: 2 <= k < j ==> s[k] == key[k - 2];
    WordEndAt(s, 2, j);
    assert SimpleAt(s, 0) == Some(j);
    var v := Show(ctx, key);
    assert ReplaceSimple(s, ctx, j + 2) == "";
    assert ReplaceSimple(s, ctx, 0) == v;
    if Plain(v) {
      PlainUnchanged(v, ctx, fuel);
      PlainConditional(v, ctx, 0);
      assert v[0..] == v;
      assert Pass(s, ctx) == v;
    }
  }

  /** Text without '{'. */
  predicate BraceFree(a: string) {
    forall k :: 0 <= k < |a| ==> a[k] != '{'
  }

  /** Brace-free text before plain text leaves it plain. */
  lemma PlainAfterBraceFree(a: string, b: string)
    requires BraceFree(a) && Plain(b)
    ensures Plain(a + b)
  {
    forall i | 0 <= i < |a + b| ensures !OpensAt(a + b, i) {
      if i >= |a| {
        assert !OpensAt(b, i - |a|);
      }
    }
  }

  /** An inherited property's text holds no "{{", so it comes back unchanged. */
  lemma InheritedPlain(key: string)
    requires IsWord(key)
    ensures Plain(InheritedText(key))
  {
    if key == "__proto__" {
      ObjectTextPlain();
    } else {
      var name := if key == "constructor" then "Object" else key;
      NativeTailPlain();
      WordBraceFree(name);
      HeadBraceFree(name);
      PlainAfterBraceFree("function " + name + "() ", NativeBody);
    }
  }

  lemma NativeTailPlain()
    ensures Plain(NativeBody)
  {
    var tail := NativeBody;
    forall i | 0 <= i < |tail| ensures !OpensAt(tail, i) {
      assert tail[1] == ' ';
    }
  }

  lemma ObjectTextPlain()
    ensures Plain("[object Object]")
  {
    var s := "[object Object]";
    forall i | 0 <= i < |s| ensures !OpensAt(s, i) {
      assert s[i] != '{';
    }
  }

  lemma WordBraceFree(name: string)
    requires IsWord(name) || name == "Object"
    ensures BraceFree(name)
  {
    if name == "Object" {
      assert forall k :: 0 <= k < |name| ==> WordChar(name[k]);
    }
  }

  lemma HeadBraceFree(name: string)
    requires BraceFree(name)
    ensures BraceFree("function " + name + "() ")
  {
    var a := "function ";
    var b := "() ";
    assert BraceFree(a) && BraceFree(b);
  }

  /** A key that is no own property but inherited still substitutes: `{{key}}`
      prints the inherited property and `{{key?truthy:falsy}}` takes `truthy`,
      as `constructor`, `__proto__` and `toString` show. */
  lemma InheritedSubstitution(ctx: Context, fuel: nat)
    requires "constructor" !in ctx && "__proto__" !in ctx && "toString" !in ctx
    ensures Expand(Placeholder("constructor"), ctx, fuel) == NativeFunction("Object")
    ensures Expand(Placeholder("__proto__"), ctx, fuel) == "[object Object]"
    ensures Expand(Conditioned("toString", "a", "b"), ctx, fuel) == "a"
  {
    assert IsWord("constructor") && IsWord("__proto__") && IsWord("toString");
    assert Inherited("constructor") && Inherited("__proto__") && Inherited("toString") by {
      assert InheritedMethods[0] == "constructor" && InheritedMethods[5] == "toString";
    }
    InheritedPlain("constructor");
    InheritedPlain("__proto__");
    SimpleSubstitution("constructor", ctx, fuel);
    SimpleSubstitution("__proto__", ctx, fuel);
    assert PlainTruthy("a") && PlainFalsy("b");
    ConditionalSubstitution("toString", "a", "b", ctx, fuel);
  }

  /** The text of "{{" + key + "?" + truthy + ":" + falsy + "}}". */
  function Conditioned(key: string, truthy: string, falsy: string): string {
    "{{" + key + "?" + truthy + ":" + falsy + "}}"
  }

  /** Part of a truthy branch the pattern accepts plainly: no ':', no '{' and
      no backslash. */
  predicate PlainTruthy(a: string) {
    forall k :: 0 <= k < |a| ==> a[k] != ':' && a[k] != '{' && a[k] != '\\'
  }

  /** A falsy branch without braces. */
  predicate PlainFalsy(b: string) {
    forall k :: 0 <= k < |b| ==> b[k] != '{' && b[k] != '}'
  }

  lemma {:induction false} FalsyWalk(s: string, q: nat, c: nat)
    requires q <= c && ClosesAt(s, c)
    requires forall k :: q <= k < c ==> s[k] != '{' && s[k] != '}'
    ensures FalsyEnd(s, q) == Some(c)
    decreases c - q
  {
    if q < c {
      FalsyWalk(s, q + 1, c);
    }
  }

  lemma {:induction false} TruthyWalk(s: string, p: nat, sep: nat, c: nat)
    requires p <= sep < |s| && s[sep] == ':' && FalsyEnd(s, sep + 1) == Some(c)
    requires forall k :: p <= k < sep ==> s[k] != ':' && s[k] != '{' && s[k] != '\\'
    ensures TruthyEnd(s, p) == Some((sep, c))
    decreases sep - p
  {
    if p < sep {
      TruthyWalk(s, p + 1, sep, c);
    }
  }

  /** Where the parts of `{{key?truthy:falsy}}` lie in s. */
  predicate Layout(s: string, key: string, a: string, b: string) {
    var j := 2 + |key|;
    var sep := j + 1 + |a|;
    var c := sep + 1 + |b|;
    |s| == c + 2 && s[0] == '{' && s[1] == '{' &&
    s[j] == '?' && s[sep] == ':' && s[c] == '}' && s[c + 1] == '}' &&
    s[2..j] == key && s[j + 1..sep] == a && s[sep + 1..c] == b &&
    (forall k :: 2 <= k < j ==> s[k] == key[k - 2]) &&
    (forall k :: j + 1 <= k < sep ==> s[k] == a[k - (j + 1)]) &&
    (forall k :: sep + 1 <= k < c ==> s[k] == b[k - (sep + 1)])
  }

  lemma ConditionedLayout(key: string, a: string, b: string)
    ensures Layout(Conditioned(key, a, b), key, a, b)
  {
  }

  /** Past its opening braces `{{key?truthy:falsy}}` has no "{{". */
  lemma LayoutPlain(s: string, key: string, a: string, b: string)
    requires IsWord(key) && PlainTruthy(a) && PlainFalsy(b) && Layout(s, key, a, b)
    ensures PlainFrom(s, 1)
  {
    var j := 2 + |key|;
    forall k | 1 <= k < |s| ensures !OpensAt(s, k) {
      if k == 1 {
        assert WordChar(key[0]);
      } else if k < j {
        assert WordChar(key[k - 2]);
      }
    }
  }

  /** The one match in `{{key?truthy:falsy}}` for plain branches. */
  lemma ConditionedMatch(key: string, a: string, b: string)
    requires IsWord(key) && PlainTruthy(a) && PlainFalsy(b)
    ensures var s := Conditioned(key, a, b);
      ConditionalAt(s, 0) == Some(Conditional(key, Some((a, b)), |s|))
  {
    ConditionedLayout(key, a, b);
    LayoutMatch(Conditioned(key, a, b), key, a, b);
  }

  /** The same, for any text laid out that way. */
  lemma LayoutMatch(s: string, key: string, a: string, b: string)
    requires IsWord(key) && PlainTruthy(a) && PlainFalsy(b) && Layout(s, key, a, b)
    ensures ConditionalAt(s, 0) == Some(Conditional(key, Some((a, b)), |s|))
  {
    var j := 2 + |key|;
    var sep := j + 1 + |a|;
    var c := sep + 1 + |b|;
    LayoutKey(s, key, a, b);
    LayoutBranches(s, key, a, b);
    GroupMatch(s, 0, j, sep, c);
  }

  /** In the layout the key is the word after the opening braces. */
  lemma LayoutKey(s: string, key: string, a: string, b: string)
    requires IsWord(key) && Layout(s, key, a, b)
    ensures WordEnd(s, 2) == 2 + |key|
  {
    var j := 2 + |key|;
    forall k | 2 <= k < j ensures WordChar(s[k]) {
      assert s[k] == key[k - 2];
    }
    WordEndAt(s, 2, j);
  }

  /** In the layout the lazy groups stop at the ':' and at the closing braces. */
  lemma LayoutBranches(s: string, key: string, a: string, b: string)
    requires PlainTruthy(a) && PlainFalsy(b) && Layout(s, key, a, b)
    ensures var j := 2 + |key|; var sep := j + 1 + |a|;
      TruthyEnd(s, j + 1) == Some((sep, sep + 1 + |b|))
  {
    var j := 2 + |key|;
    var sep := j + 1 + |a|;
    var c := sep + 1 + |b|;
    forall k | sep + 1 <= k < c ensures s[k] != '{' && s[k] != '}' {
      assert s[k] == b[k - (sep + 1)];
    }
    FalsyWalk(s, sep + 1, c);
    forall k | j + 1 <= k < sep ensures s[k] != ':' && s[k] != '{' && s[k] != '\\' {
      assert s[k] == a[k - (j + 1)];
    }
    TruthyWalk(s, j + 1, sep, c);
  }

  /** A word followed by '?' and a truthy and a falsy part is a match with both branches. */
  lemma GroupMatch(s: string, i: nat, j: nat, sep: nat, c: nat)
    requires OpensAt(s, i) && i + 2 < j < |s| && WordEnd(s, i + 2) == j && s[j] == '?'
    requires TruthyEnd(s, j + 1) == Some((sep, c))
    ensures ConditionalAt(s, i) == Some(Conditional(s[i + 2..j], Some((s[j + 1..sep], s[sep + 1..c])), c + 2))
  {
  }

  /** `{{key?truthy:falsy}}` becomes `truthy` when `context[key]` is truthy and
      `falsy` otherwise; for a key that is not an own property, `truthy`
      exactly when it is inherited. The loop ends there. */
  lemma ConditionalSubstitution(key: string, a: string, b: string, ctx: Context, fuel: nat)
    requires IsWord(key) && PlainTruthy(a) && PlainFalsy(b)
    ensures Expand(Conditioned(key, a, b), ctx, fuel) == if Truthy(ctx, key) then a else b
    ensures key !in ctx ==> (Truthy(ctx, key) <==> Inherited(key))
  {
    var s := Conditioned(key, a, b);
    var chosen := if Truthy(ctx, key) then a else b;
    ConditionedLayout(key, a, b);
    LayoutPass(s, key, a, b, ctx);
    assert Plain(chosen);
    PlainUnchanged(chosen, ctx, 0);
    ExpandOnce(s, ctx, fuel);
  }

  /** One pass over text laid out as `{{key?truthy:falsy}}` picks a branch. */
  lemma LayoutPass(s: string, key: string, a: string, b: string, ctx: Context)
    requires IsWord(key) && PlainTruthy(a) && PlainFalsy(b) && Layout(s, key, a, b)
    ensures Pass(s, ctx) == if Truthy(ctx, key) then a else b
  {
    LayoutMatch(s, key, a, b);
    LayoutPlain(s, key, a, b);
    PlainSimple(s, ctx, 1);
    assert SimpleAt(s, 0).None? by {
      LayoutKey(s, key, a, b);
    }
    assert ReplaceSimple(s, ctx, 0) == s by {
      assert s == [s[0]] + s[1..];
    }
    assert ReplaceConditional(s, ctx, |s|) == "";
  }
}

/** How `#processTemplate` treats a template piece by piece: what each scan
    does at a position depends only on the text from that position on, so a
    template can be read as a sequence of chunks (plain text, `{{key}}`,
    `{{key?truthy:falsy}}`), each of which one pass rewrites on its own. */
module Substitution {
  import opened Wrappers
  import opened JsText
  import opened Template
  import Constants

  // ---------------------------------------------------------------------
  // The scans as rules
  //
  // Each scan is read as the text (or the answer) it produces from every
  // position of s on. The lemmas below work with any function that obeys the
  // scan's rule at every position, so that they never unfold the scan itself.

  /** What `ReplaceSimple` produces from position k, given what it produces later. */
  function SimpleRule(f: nat -> string, s: string, ctx: Context, k: nat): string
    requires k <= |s|
  {
    if k == |s| then ""
    else match SimpleAt(s, k)
      case Some(j) => Show(ctx, s[k + 2..j]) + f(j + 2)
      case None => [s[k]] + f(k + 1)
  }

  predicate SimpleScan(f: nat -> string, s: string, ctx: Context) {
    forall k: nat {:trigger SimpleRule(f, s, ctx, k)} :: k <= |s| ==> f(k) == SimpleRule(f, s, ctx, k)
  }

  /** The simple scan itself, position by position. */
  function SimpleFrom(s: string, ctx: Context): nat -> string {
    (k: nat) => if k <= |s| then ReplaceSimple(s, ctx, k) else ""
  }

  lemma SimpleFromScans(s: string, ctx: Context)
    ensures SimpleScan(SimpleFrom(s, ctx), s, ctx)
  {
    var f := SimpleFrom(s, ctx);
    forall k: nat | k <= |s| ensures f(k) == SimpleRule(f, s, ctx, k) {
      SimpleFromAt(s, ctx, k);
    }
  }

  lemma SimpleFromAt(s: string, ctx: Context, k: nat)
    requires k <= |s|
    ensures SimpleFrom(s, ctx)(k) == SimpleRule(SimpleFrom(s, ctx), s, ctx, k)
  {
    var f := SimpleFrom(s, ctx);
    assert f(k) == ReplaceSimple(s, ctx, k);
    if k < |s| {
      match SimpleAt(s, k)
      case Some(j) =>
        assert f(j + 2) == ReplaceSimple(s, ctx, j + 2);
      case None =>
        assert f(k + 1) == ReplaceSimple(s, ctx, k + 1);
    }
  }

  /** What `ReplaceConditional` produces from position k, given what it produces later. */
  function ConditionalRule(g: nat -> string, s: string, ctx: Context, k: nat): string
    requires k <= |s|
  {
    if k == |s| then ""
    else match ConditionalAt(s, k)
      case Some(c) => Choose(ctx, c) + g(c.end)
      case None => [s[k]] + g(k + 1)
  }

  predicate ConditionalScan(g: nat -> string, s: string, ctx: Context) {
    forall k: nat {:trigger ConditionalRule(g, s, ctx, k)} :: k <= |s| ==> g(k) == ConditionalRule(g, s, ctx, k)
  }

  /** The conditional scan itself, position by position. */
  function ConditionalFrom(s: string, ctx: Context): nat -> string {
    (k: nat) => if k <= |s| then ReplaceConditional(s, ctx, k) else ""
  }

  lemma ConditionalFromScans(s: string, ctx: Context)
    ensures ConditionalScan(ConditionalFrom(s, ctx), s, ctx)
  {
    var g := ConditionalFrom(s, ctx);
    forall k: nat | k <= |s| ensures g(k) == ConditionalRule(g, s, ctx, k) {
      ConditionalFromAt(s, ctx, k);
    }
  }

  lemma ConditionalFromAt(s: string, ctx: Context, k: nat)
    requires k <= |s|
    ensures ConditionalFrom(s, ctx)(k) == ConditionalRule(ConditionalFrom(s, ctx), s, ctx, k)
  {
    var g := ConditionalFrom(s, ctx);
    assert g(k) == ReplaceConditional(s, ctx, k);
    if k < |s| {
      match ConditionalAt(s, k)
      case Some(c) =>
        assert g(c.end) == ReplaceConditional(s, ctx, c.end);
      case None =>
        assert g(k + 1) == ReplaceConditional(s, ctx, k + 1);
    }
  }

  /** What `HasConditional` answers at position k, given its answer at k + 1. */
  predicate HasRule(h: nat -> bool, s: string, k: nat)
    requires k <= |s|
  {
    k < |s| && (ConditionalAt(s, k).Some? || h(k + 1))
  }

  predicate HasScan(h: nat -> bool, s: string) {
    forall k: nat {:trigger HasRule(h, s, k)} :: k <= |s| ==> h(k) == HasRule(h, s, k)
  }

  function HasFrom(s: string): nat -> bool {
    (k: nat) => k <= |s| && HasConditional(s, k)
  }

  lemma HasFromScans(s: string)
    ensures HasScan(HasFrom(s), s)
  {
  }

  /** Where no match starts, a scan copies the character. */
  lemma SimpleCopies(f: nat -> string, s: string, ctx: Context, k: nat)
    requires SimpleScan(f, s, ctx) && k < |s| && SimpleAt(s, k).None?
    ensures f(k) == [s[k]] + f(k + 1)
  {
    assert f(k) == SimpleRule(f, s, ctx, k);
  }

  lemma ConditionalCopies(g: nat -> string, s: string, ctx: Context, k: nat)
    requires ConditionalScan(g, s, ctx) && k < |s| && ConditionalAt(s, k).None?
    ensures g(k) == [s[k]] + g(k + 1)
  {
    assert g(k) == ConditionalRule(g, s, ctx, k);
  }

  lemma NoSimpleHere(s: string, i: nat)
    requires i <= |s| && !OpensAt(s, i)
    ensures SimpleAt(s, i).None?
  {
  }

  lemma NoConditionalHere(s: string, i: nat)
    requires i <= |s| && !OpensAt(s, i)
    ensures ConditionalAt(s, i).None?
  {
  }

  // ---------------------------------------------------------------------
  // Text written at a position

  /** t is written in s from position i on. */
  predicate WrittenAt(s: string, i: nat, t: string) {
    i + |t| <= |s| && forall m :: 0 <= m < |t| ==> s[i + m] == t[m]
  }

  lemma WrittenSlice(s: string, i: nat, t: string)
    requires WrittenAt(s, i, t)
    ensures s[i..i + |t|] == t
  {
    forall m | 0 <= m < |t| ensures s[i..i + |t|][m] == t[m] {
      assert s[i..i + |t|][m] == s[i + m];
    }
  }

  /** What is written at i splits at any point of the written text. */
  lemma WrittenHead(s: string, i: nat, t: string)
    requires WrittenAt(s, i, t) && |t| > 0
    ensures i < |s| && s[i] == t[0]
  {
    assert s[i + 0] == t[0];
  }

  lemma WrittenSplit(s: string, i: nat, t: string, u: string)
    requires WrittenAt(s, i, t + u)
    ensures WrittenAt(s, i, t) && WrittenAt(s, i + |t|, u)
  {
    forall m | 0 <= m < |t| ensures s[i + m] == t[m] {
      assert (t + u)[m] == t[m];
    }
    forall m | 0 <= m < |u| ensures s[i + |t| + m] == u[m] {
      assert (t + u)[|t| + m] == u[m];
    }
  }

  /** No "{{" starts in s[i..i + n]. */
  predicate NoOpenRun(s: string, i: nat, n: nat) {
    i + n <= |s| && forall k :: i <= k < i + n ==> !OpensAt(s, k)
  }

  /** A scan that copies each of s[i..i + n] produces that text and then
      whatever it produces from i + n. */
  lemma {:induction false} CopiedRun(f: nat -> string, s: string, i: nat, n: nat)
    requires i + n <= |s| && forall k :: i <= k < i + n ==> f(k) == [s[k]] + f(k + 1)
    ensures f(i) == s[i..i + n] + f(i + n)
    decreases n
  {
    if n == 0 {
      assert s[i..i] + f(i) == f(i);
    } else {
      CopiedRun(f, s, i + 1, n - 1);
      assert s[i..i + n] == [s[i]] + s[i + 1..i + n];
      assert [s[i]] + (s[i + 1..i + n] + f(i + n)) == s[i..i + n] + f(i + n);
    }
  }

  /** A test that gives the same answer at each step of a run gives it at both ends. */
  lemma {:induction false} SteadyRun(g: nat -> bool, i: nat, n: nat)
    requires forall k :: i <= k < i + n ==> g(k) == g(k + 1)
    ensures g(i) == g(i + n)
    decreases n
  {
    if n > 0 {
      SteadyRun(g, i + 1, n - 1);
    }
  }

  /** A scan copies text in which no "{{" starts. */
  lemma PlainRunSimple(f: nat -> string, s: string, ctx: Context, i: nat, n: nat)
    requires SimpleScan(f, s, ctx) && NoOpenRun(s, i, n)
    ensures f(i) == s[i..i + n] + f(i + n)
  {
    forall k | i <= k < i + n ensures f(k) == [s[k]] + f(k + 1) {
      NoSimpleHere(s, k);
      SimpleCopies(f, s, ctx, k);
    }
    CopiedRun(f, s, i, n);
  }

  /** The same, when the run starts with a '{' that opens no simple match. */
  lemma CopiedSimple(f: nat -> string, s: string, ctx: Context, i: nat, n: nat)
    requires SimpleScan(f, s, ctx)
    requires 0 < n && i + n <= |s| && SimpleAt(s, i).None? && NoOpenRun(s, i + 1, n - 1)
    ensures f(i) == s[i..i + n] + f(i + n)
  {
    forall k | i <= k < i + n ensures f(k) == [s[k]] + f(k + 1) {
      if k > i {
        NoSimpleHere(s, k);
      }
      SimpleCopies(f, s, ctx, k);
    }
    CopiedRun(f, s, i, n);
  }

  lemma PlainRunConditional(g: nat -> string, s: string, ctx: Context, i: nat, n: nat)
    requires ConditionalScan(g, s, ctx) && NoOpenRun(s, i, n)
    ensures g(i) == s[i..i + n] + g(i + n)
  {
    forall k | i <= k < i + n ensures g(k) == [s[k]] + g(k + 1) {
      NoConditionalHere(s, k);
      ConditionalCopies(g, s, ctx, k);
    }
    CopiedRun(g, s, i, n);
  }

  lemma CopiedConditional(g: nat -> string, s: string, ctx: Context, i: nat, n: nat)
    requires ConditionalScan(g, s, ctx)
    requires 0 < n && i + n <= |s| && ConditionalAt(s, i).None? && NoOpenRun(s, i + 1, n - 1)
    ensures g(i) == s[i..i + n] + g(i + n)
  {
    forall k | i <= k < i + n ensures g(k) == [s[k]] + g(k + 1) {
      if k > i {
        NoConditionalHere(s, k);
      }
      ConditionalCopies(g, s, ctx, k);
    }
    CopiedRun(g, s, i, n);
  }

  /** No conditional match starts in a run without "{{". */
  lemma PlainRunHas(h: nat -> bool, s: string, i: nat, n: nat)
    requires HasScan(h, s) && NoOpenRun(s, i, n)
    ensures h(i) == h(i + n)
  {
    forall k | i <= k < i + n ensures h(k) == h(k + 1) {
      NoConditionalHere(s, k);
      assert h(k) == HasRule(h, s, k);
    }
    SteadyRun(h, i, n);
  }

  /** Written text without '{' is a plain run. */
  lemma WrittenPlain(s: string, i: nat, t: string)
    requires WrittenAt(s, i, t) && forall m :: 0 <= m < |t| ==> t[m] != '{'
    ensures NoOpenRun(s, i, |t|)
  {
    forall k | i <= k < i + |t| ensures !OpensAt(s, k) {
      assert s[k] == t[k - i];
    }
  }

  /** The key of a placeholder written at i ends where the word characters stop. */
  lemma KeyAt(s: string, i: nat, key: string, after: char)
    requires IsWord(key) && !WordChar(after) && WrittenAt(s, i, "{{" + key + [after])
    ensures OpensAt(s, i) && WordEnd(s, i + 2) == i + 2 + |key| && s[i + 2 + |key|] == after
    ensures s[i + 2..i + 2 + |key|] == key
    ensures !OpensAt(s, i + 1)
  {
    var t := "{{" + key + [after];
    assert s[i] == t[0] && s[i + 1] == t[1];
    assert s[i + 2] == t[2] == key[0];
    assert s[i + 2 + |key|] == t[2 + |key|];
    forall m | 0 <= m < |key| ensures s[i + 2 + m] == key[m] {
      assert s[i + 2 + m] == t[2 + m];
    }
    forall k | i + 2 <= k < i + 2 + |key| ensures WordChar(s[k]) {
      assert s[k] == key[k - i - 2];
    }
    WordEndAt(s, i + 2, i + 2 + |key|);
    WrittenSlice(s, i + 2, key);
  }

  /** `{{key}}` written at i is a simple match with that key. */
  lemma HoleMatch(s: string, i: nat, key: string)
    requires IsWord(key) && WrittenAt(s, i, Placeholder(key))
    ensures SimpleAt(s, i) == Some(i + 2 + |key|) && s[i + 2..i + 2 + |key|] == key
  {
    var p := Placeholder(key);
    var j := i + 2 + |key|;
    assert p == ("{{" + key + "}") + "}";
    WrittenSplit(s, i, "{{" + key + "}", "}");
    KeyAt(s, i, key, '}');
    assert s[j + 1] == p[j + 1 - i];
    assert ClosesAt(s, j);
  }

  /** The opening "{{key?" of a conditional placeholder. */
  function Opener(key: string): string {
    "{{" + key + "?"
  }

  /** Past its first character, "{{key?" holds no opening. */
  lemma OpenerLayout(s: string, i: nat, key: string)
    requires IsWord(key) && WrittenAt(s, i, Opener(key))
    ensures SimpleAt(s, i).None? && NoOpenRun(s, i + 1, |Opener(key)| - 1)
    ensures s[i..i + |Opener(key)|] == Opener(key)
  {
    var o := Opener(key);
    KeyAt(s, i, key, '?');
    forall k | i + 2 <= k < i + |o| ensures !OpensAt(s, k) {
      assert s[k] == o[k - i];
    }
    WrittenSlice(s, i, o);
  }

  /** "{{key?" directly followed by '{' is no conditional match: the truthy
      part cannot start with '{' and the key is not followed by "}}". */
  lemma OpenerBlocked(s: string, i: nat, key: string)
    requires IsWord(key) && WrittenAt(s, i, Opener(key) + "{")
    ensures ConditionalAt(s, i).None?
  {
    var o := Opener(key);
    WrittenSplit(s, i, o, "{");
    KeyAt(s, i, key, '?');
    var j := i + 2 + |key|;
    assert s[j + 1] == (o + "{")[j + 1 - i];
    assert TruthyEnd(s, j + 1).None?;
  }

  /** Where the parts of `{{key?truthy:falsy}}` written at i lie. */
  lemma CondParts(s: string, i: nat, key: string, a: string, b: string)
    requires WrittenAt(s, i, Conditioned(key, a, b))
    ensures var j := i + |Opener(key)|;
      var sep := j + |a|;
      var c := sep + 1 + |b|;
      WrittenAt(s, i, Opener(key)) && WrittenAt(s, j, a) && sep < |s| && s[sep] == ':' &&
      WrittenAt(s, sep + 1, b) && ClosesAt(s, c) && c + 2 == i + |Conditioned(key, a, b)|
  {
    var o := Opener(key);
    assert Conditioned(key, a, b) == o + a + ":" + b + "}}";
    WrittenSplit(s, i, o + a + ":" + b, "}}");
    WrittenSplit(s, i, o + a + ":", b);
    WrittenSplit(s, i, o + a, ":");
    WrittenSplit(s, i, o, a);
    var c := i + |o| + |a| + 1 + |b|;
    assert s[c] == "}}"[0] && s[c + 1] == "}}"[1];
    assert s[i + |o| + |a|] == ":"[0];
  }

  /** `{{key?truthy:falsy}}` at i, with plain branches: the conditional
      pattern matches exactly it, and the simple one does not match there. */
  lemma CondMatch(s: string, i: nat, key: string, a: string, b: string)
    requires IsWord(key) && PlainTruthy(a) && PlainFalsy(b)
    requires WrittenAt(s, i, Conditioned(key, a, b))
    ensures ConditionalAt(s, i) == Some(Conditional(key, Some((a, b)), i + |Conditioned(key, a, b)|))
  {
    CondParts(s, i, key, a, b);
    OpenerLength(key);
    var j := i + 2 + |key|;
    var sep := j + 1 + |a|;
    PartsAt(s, i, key, a, b);
    GroupMatch(s, i, j, sep, sep + 1 + |b|);
  }

  lemma OpenerLength(key: string)
    ensures |Opener(key)| == |key| + 3
  {
  }

  /** What the parts "{{key?", the truthy branch, ':', the falsy branch and
      "}}" tell the scanners. */
  lemma PartsAt(s: string, i: nat, key: string, a: string, b: string)
    requires IsWord(key) && PlainTruthy(a) && PlainFalsy(b)
    requires var sep := i + 3 + |key| + |a|;
      WrittenAt(s, i, Opener(key)) && WrittenAt(s, i + 3 + |key|, a) && sep < |s| && s[sep] == ':' &&
      WrittenAt(s, sep + 1, b) && ClosesAt(s, sep + 1 + |b|)
    ensures var j := i + 2 + |key|; var sep := j + 1 + |a|; var c := sep + 1 + |b|;
      OpensAt(s, i) && WordEnd(s, i + 2) == j && s[j] == '?' && s[i + 2..j] == key &&
      TruthyEnd(s, j + 1) == Some((sep, c)) && s[j + 1..sep] == a && s[sep + 1..c] == b
  {
    var j := i + 2 + |key|;
    WrittenSlice(s, j + 1, a);
    WrittenSlice(s, j + 2 + |a|, b);
    KeyAt(s, i, key, '?');
    BranchesAt(s, j, a, b);
  }

  /** Plain branches written after the '?' at j end the lazy groups at their ':' and "}}". */
  lemma BranchesAt(s: string, j: nat, a: string, b: string)
    requires PlainTruthy(a) && PlainFalsy(b)
    requires WrittenAt(s, j + 1, a) && j + 1 + |a| < |s| && s[j + 1 + |a|] == ':'
    requires WrittenAt(s, j + 2 + |a|, b) && ClosesAt(s, j + 2 + |a| + |b|)
    ensures TruthyEnd(s, j + 1) == Some((j + 1 + |a|, j + 2 + |a| + |b|))
  {
    var sep := j + 1 + |a|;
    var c := sep + 1 + |b|;
    forall k | sep + 1 <= k < c ensures s[k] != '{' && s[k] != '}' {
      assert s[k] == b[k - (sep + 1)];
    }
    FalsyWalk(s, sep + 1, c);
    forall k | j + 1 <= k < sep ensures s[k] != ':' && s[k] != '{' && s[k] != '\\' {
      assert s[k] == a[k - (j + 1)];
    }
    TruthyWalk(s, j + 1, sep, c);
  }

  /** Past its first character, `{{key?truthy:falsy}}` with plain branches
      holds no opening. */
  lemma CondLayout(s: string, i: nat, key: string, a: string, b: string)
    requires IsWord(key) && PlainTruthy(a) && PlainFalsy(b)
    requires WrittenAt(s, i, Conditioned(key, a, b))
    ensures SimpleAt(s, i).None? && NoOpenRun(s, i + 1, |Conditioned(key, a, b)| - 1)
    ensures s[i..i + |Conditioned(key, a, b)|] == Conditioned(key, a, b)
  {
    var t := Conditioned(key, a, b);
    CondParts(s, i, key, a, b);
    OpenerLayout(s, i, key);
    var j := i + |Opener(key)|;
    forall k | j <= k < i + |t| ensures !OpensAt(s, k) {
      if k < j + |a| {
        assert s[k] == a[k - j];
      } else if j + |a| < k < j + |a| + 1 + |b| {
        assert s[k] == b[k - (j + |a| + 1)];
      }
    }
    WrittenSlice(s, i, t);
  }


  /** Text written at i and text written right after it. */
  lemma WrittenJoin(s: string, i: nat, t: string, u: string)
    requires WrittenAt(s, i, t) && WrittenAt(s, i + |t|, u)
    ensures WrittenAt(s, i, t + u)
  {
    forall m | 0 <= m < |t + u| ensures s[i + m] == (t + u)[m] {
      if m >= |t| {
        assert s[i + |t| + (m - |t|)] == u[m - |t|];
      }
    }
  }

  // ---------------------------------------------------------------------
  // Templates as sequences of chunks

  /** A piece of a template: text without '{', `{{key}}`, the opening
      `{{key?` of a conditional placeholder whose truthy part starts with
      another placeholder, or a whole `{{key?truthy:falsy}}`. */
  datatype Chunk = Lit(text: string) | Hole(key: string) | Open(key: string) | Cond(key: string, truthy: string, falsy: string)

  function Written(c: Chunk): string {
    match c
    case Lit(t) => t
    case Hole(k) => Placeholder(k)
    case Open(k) => Opener(k)
    case Cond(k, a, b) => Conditioned(k, a, b)
  }

  /** A template read as a list of chunks. */
  datatype Chunks = Done | Then(first: Chunk, rest: Chunks)

  function Joined(cs: Chunks): string {
    match cs
    case Done => ""
    case Then(c, rest) => Written(c) + Joined(rest)
  }

  /** The chunk is what it says it is. */
  predicate Ready(c: Chunk) {
    match c
    case Lit(t) => NoBrace(t)
    case Hole(k) => IsWord(k)
    case Open(k) => IsWord(k)
    case Cond(k, a, b) => IsWord(k) && PlainTruthy(a) && PlainFalsy(b)
  }

  /** No '{' anywhere. */
  predicate NoBrace(t: string) {
    forall m :: 0 <= m < |t| ==> t[m] != '{'
  }

  predicate AllReady(cs: Chunks) {
    cs.Done? || (Ready(cs.first) && AllReady(cs.rest))
  }

  /** Chunks the conditional scan rewrites one by one: no `{{key}}` (the
      conditional pattern would match it too), and every opening is
      followed by a placeholder. */
  predicate ConditionalReady(cs: Chunks) {
    cs.Done? ||
    (Ready(cs.first) && !cs.first.Hole? &&
     (cs.first.Open? ==> cs.rest.Then? && !cs.rest.first.Lit?) &&
     ConditionalReady(cs.rest))
  }

  /** Every chunk but plain text starts with '{'. */
  lemma JoinedBrace(cs: Chunks)
    requires cs.Then? && !cs.first.Lit?
    ensures |Joined(cs)| > 0 && Joined(cs)[0] == '{'
  {
    assert Written(cs.first)[0] == '{';
  }

  /** What the simple scan makes of a chunk. */
  function SimpleImageOf(c: Chunk, ctx: Context): string {
    match c
    case Hole(k) => Show(ctx, k)
    case _ => Written(c)
  }

  function SimpleImage(ctx: Context): Chunk -> string {
    c => SimpleImageOf(c, ctx)
  }

  /** What the conditional scan makes of a chunk. */
  function ConditionalImageOf(c: Chunk, ctx: Context): string {
    match c
    case Cond(k, a, b) => if Truthy(ctx, k) then a else b
    case _ => Written(c)
  }

  function ConditionalImage(ctx: Context): Chunk -> string {
    c => ConditionalImageOf(c, ctx)
  }

  /** The simple scan copies plain text, replaces `{{key}}` by the shown
      value of key and passes over the other placeholders. */
  lemma LitSimple(f: nat -> string, s: string, ctx: Context, i: nat, t: string)
    requires SimpleScan(f, s, ctx) && WrittenAt(s, i, t) && Ready(Lit(t))
    ensures f(i) == t + f(i + |t|)
  {
    WrittenPlain(s, i, t);
    PlainRunSimple(f, s, ctx, i, |t|);
    WrittenSlice(s, i, t);
  }

  lemma HoleSimple(f: nat -> string, s: string, ctx: Context, i: nat, k: string)
    requires SimpleScan(f, s, ctx) && WrittenAt(s, i, Placeholder(k)) && IsWord(k)
    ensures f(i) == Show(ctx, k) + f(i + |Placeholder(k)|)
  {
    HoleMatch(s, i, k);
    assert f(i) == SimpleRule(f, s, ctx, i);
  }

  lemma OpenSimple(f: nat -> string, s: string, ctx: Context, i: nat, k: string)
    requires SimpleScan(f, s, ctx) && WrittenAt(s, i, Opener(k)) && IsWord(k)
    ensures f(i) == Opener(k) + f(i + |Opener(k)|)
  {
    OpenerLayout(s, i, k);
    CopiedSimple(f, s, ctx, i, |Opener(k)|);
  }

  lemma CondSimple(f: nat -> string, s: string, ctx: Context, i: nat, k: string, a: string, b: string)
    requires SimpleScan(f, s, ctx) && WrittenAt(s, i, Conditioned(k, a, b)) && Ready(Cond(k, a, b))
    ensures f(i) == Conditioned(k, a, b) + f(i + |Conditioned(k, a, b)|)
  {
    CondLayout(s, i, k, a, b);
    CopiedSimple(f, s, ctx, i, |Conditioned(k, a, b)|);
  }

  /** The simple scan rewrites one chunk. */
  lemma ChunkSimple(f: nat -> string, s: string, ctx: Context, i: nat, c: Chunk)
    requires SimpleScan(f, s, ctx) && WrittenAt(s, i, Written(c)) && Ready(c)
    ensures f(i) == SimpleImageOf(c, ctx) + f(i + |Written(c)|)
  {
    match c {
      case Lit(t) => LitSimple(f, s, ctx, i, t);
      case Hole(k) => HoleSimple(f, s, ctx, i, k);
      case Open(k) => OpenSimple(f, s, ctx, i, k);
      case Cond(k, a, b) => CondSimple(f, s, ctx, i, k, a, b);
    }
  }

  /** The conditional scan copies plain text and openings followed by '{',
      and replaces `{{key?truthy:falsy}}` by the branch key selects. */
  lemma LitConditional(g: nat -> string, s: string, ctx: Context, i: nat, t: string)
    requires ConditionalScan(g, s, ctx) && WrittenAt(s, i, t) && Ready(Lit(t))
    ensures g(i) == t + g(i + |t|)
  {
    WrittenPlain(s, i, t);
    PlainRunConditional(g, s, ctx, i, |t|);
    WrittenSlice(s, i, t);
  }

  lemma OpenConditional(g: nat -> string, s: string, ctx: Context, i: nat, k: string)
    requires ConditionalScan(g, s, ctx) && WrittenAt(s, i, Opener(k)) && IsWord(k)
    requires i + |Opener(k)| < |s| && s[i + |Opener(k)|] == '{'
    ensures g(i) == Opener(k) + g(i + |Opener(k)|)
  {
    var o := Opener(k);
    assert s[i + |o| + 0] == "{"[0];
    WrittenJoin(s, i, o, "{");
    OpenerLayout(s, i, k);
    OpenerBlocked(s, i, k);
    CopiedConditional(g, s, ctx, i, |o|);
  }

  lemma CondConditional(g: nat -> string, s: string, ctx: Context, i: nat, k: string, a: string, b: string)
    requires ConditionalScan(g, s, ctx) && WrittenAt(s, i, Conditioned(k, a, b)) && Ready(Cond(k, a, b))
    ensures g(i) == (if Truthy(ctx, k) then a else b) + g(i + |Conditioned(k, a, b)|)
  {
    CondMatch(s, i, k, a, b);
    assert g(i) == ConditionalRule(g, s, ctx, i);
  }

  /** The conditional scan rewrites one chunk; an opening must be followed by '{'. */
  lemma ChunkConditional(g: nat -> string, s: string, ctx: Context, i: nat, c: Chunk)
    requires ConditionalScan(g, s, ctx) && WrittenAt(s, i, Written(c)) && Ready(c) && !c.Hole?
    requires c.Open? ==> i + |Written(c)| < |s| && s[i + |Written(c)|] == '{'
    ensures g(i) == ConditionalImageOf(c, ctx) + g(i + |Written(c)|)
  {
    match c {
      case Lit(t) => LitConditional(g, s, ctx, i, t);
      case Open(k) => OpenConditional(g, s, ctx, i, k);
      case Cond(k, a, b) => CondConditional(g, s, ctx, i, k, a, b);
    }
  }

  // ---------------------------------------------------------------------
  // Whole chunk lists

  /** The images of the chunks, one after the other. */
  function Images(img: Chunk -> string, cs: Chunks): string {
    match cs
    case Done => ""
    case Then(c, rest) => img(c) + Images(img, rest)
  }

  /** Read as the text it produces from each position on, a scan rewrites
      each chunk written from i on by img. */
  predicate Steps(f: nat -> string, img: Chunk -> string, i: nat, cs: Chunks)
    decreases cs
  {
    cs.Done? ||
    (f(i) == img(cs.first) + f(i + |Written(cs.first)|) && Steps(f, img, i + |Written(cs.first)|, cs.rest))
  }

  /** Such a scan rewrites the whole chunk list into the images of its chunks. */
  lemma {:induction false} Chain(f: nat -> string, img: Chunk -> string, i: nat, cs: Chunks)
    requires Steps(f, img, i, cs)
    ensures f(i) == Images(img, cs) + f(i + |Joined(cs)|)
    decreases cs
  {
    if cs.Then? {
      var n := |Written(cs.first)|;
      var m := i + n + |Joined(cs.rest)|;
      assert f(i) == img(cs.first) + f(i + n);
      Chain(f, img, i + n, cs.rest);
      assert m == i + |Joined(cs)|;
      Assoc(img(cs.first), Images(img, cs.rest), f(m));
    }
  }

  /** A scan that rewrites every chunk of some kind wherever it is written,
      rewrites a list of such chunks one by one. */
  lemma {:induction false} StepsOf(f: nat -> string, img: Chunk -> string, s: string, i: nat, cs: Chunks)
    requires WrittenAt(s, i, Joined(cs)) && AllReady(cs)
    requires forall c: Chunk, j: nat {:trigger WrittenAt(s, j, Written(c))} ::
      Ready(c) && WrittenAt(s, j, Written(c)) ==> f(j) == img(c) + f(j + |Written(c)|)
    ensures Steps(f, img, i, cs)
    decreases cs
  {
    if cs.Then? {
      var c := cs.first;
      var n := |Written(c)|;
      WrittenSplit(s, i, Written(c), Joined(cs.rest));
      assert f(i) == img(c) + f(i + n);
      StepsOf(f, img, s, i + n, cs.rest);
    }
  }

  lemma SimpleSteps(f: nat -> string, s: string, ctx: Context, i: nat, cs: Chunks)
    requires SimpleScan(f, s, ctx) && WrittenAt(s, i, Joined(cs)) && AllReady(cs)
    ensures Steps(f, SimpleImage(ctx), i, cs)
  {
    forall c: Chunk, j: nat | Ready(c) && WrittenAt(s, j, Written(c))
      ensures f(j) == SimpleImage(ctx)(c) + f(j + |Written(c)|)
    {
      ChunkSimple(f, s, ctx, j, c);
    }
    StepsOf(f, SimpleImage(ctx), s, i, cs);
  }

  /** Where a chunk is followed by '{' when it is an opening. */
  predicate BraceAfter(s: string, j: nat, c: Chunk) {
    c.Open? ==> j + |Written(c)| < |s| && s[j + |Written(c)|] == '{'
  }

  /** The same for the conditional scan, whose openings need a '{' after them. */
  lemma {:induction false} ConditionalStepsOf(g: nat -> string, img: Chunk -> string, s: string, i: nat, cs: Chunks)
    requires WrittenAt(s, i, Joined(cs)) && ConditionalReady(cs)
    requires forall c: Chunk, j: nat {:trigger WrittenAt(s, j, Written(c))} ::
      Ready(c) && !c.Hole? && WrittenAt(s, j, Written(c)) && BraceAfter(s, j, c) ==>
        g(j) == img(c) + g(j + |Written(c)|)
    ensures Steps(g, img, i, cs)
    decreases cs
  {
    if cs.Then? {
      var c := cs.first;
      var n := |Written(c)|;
      WrittenSplit(s, i, Written(c), Joined(cs.rest));
      assert BraceAfter(s, i, c) by {
        if c.Open? {
          JoinedBrace(cs.rest);
          WrittenHead(s, i + n, Joined(cs.rest));
        }
      }
      assert g(i) == img(c) + g(i + n);
      ConditionalStepsOf(g, img, s, i + n, cs.rest);
    }
  }

  lemma ConditionalSteps(g: nat -> string, s: string, ctx: Context, i: nat, cs: Chunks)
    requires ConditionalScan(g, s, ctx) && WrittenAt(s, i, Joined(cs)) && ConditionalReady(cs)
    ensures Steps(g, ConditionalImage(ctx), i, cs)
  {
    forall c: Chunk, j: nat | Ready(c) && !c.Hole? && WrittenAt(s, j, Written(c)) && BraceAfter(s, j, c)
      ensures g(j) == ConditionalImage(ctx)(c) + g(j + |Written(c)|)
    {
      ChunkConditional(g, s, ctx, j, c);
    }
    ConditionalStepsOf(g, ConditionalImage(ctx), s, i, cs);
  }

  /** The simple scan rewrites a template chunk by chunk. */
  lemma SimpleChunks(s: string, ctx: Context, cs: Chunks)
    requires s == Joined(cs) && AllReady(cs)
    ensures ReplaceSimple(s, ctx, 0) == Images(SimpleImage(ctx), cs)
  {
    SimpleFromScans(s, ctx);
    SimpleSteps(SimpleFrom(s, ctx), s, ctx, 0, cs);
    Chain(SimpleFrom(s, ctx), SimpleImage(ctx), 0, cs);
    assert SimpleFrom(s, ctx)(|s|) == "";
  }

  /** The conditional scan rewrites a template chunk by chunk. */
  lemma ConditionalChunks(s: string, ctx: Context, cs: Chunks)
    requires s == Joined(cs) && ConditionalReady(cs)
    ensures ReplaceConditional(s, ctx, 0) == Images(ConditionalImage(ctx), cs)
  {
    ConditionalFromScans(s, ctx);
    ConditionalSteps(ConditionalFrom(s, ctx), s, ctx, 0, cs);
    Chain(ConditionalFrom(s, ctx), ConditionalImage(ctx), 0, cs);
    assert ConditionalFrom(s, ctx)(|s|) == "";
  }

  // ---------------------------------------------------------------------
  // The default text template

  lemma NoBracePlain(t: string)
    requires NoBrace(t)
    ensures Plain(t)
  {
  }

  /** A conditional placeholder after text without "{{" makes the pattern match. */
  lemma HasAfterPlain(s: string, n: nat, key: string, a: string, b: string)
    requires NoOpenRun(s, 0, n) && Ready(Cond(key, a, b)) && WrittenAt(s, n, Conditioned(key, a, b))
    ensures HasConditional(s, 0)
  {
    HasFromScans(s);
    PlainRunHas(HasFrom(s), s, 0, n);
    CondMatch(s, n, key, a, b);
    assert HasRule(HasFrom(s), s, n);
  }

  /** The chunks of the default text template. */
  const TextChunks: Chunks :=
    Then(Hole("value"), Then(Open("fraction"), Then(Cond("value", " ", ""), Then(Hole("fraction"),
    Then(Lit(":}}"), Then(Open("title"), Then(Lit(" "), Then(Hole("title"), Then(Lit(":}}"), Done)))))))))

  lemma Keys()
    ensures IsWord("value") && IsWord("fraction") && IsWord("title")
  {
    assert forall k :: 0 <= k < |"value"| ==> WordChar("value"[k]);
    assert forall k :: 0 <= k < |"fraction"| ==> WordChar("fraction"[k]);
    assert forall k :: 0 <= k < |"title"| ==> WordChar("title"[k]);
  }

  lemma TextChunksReady()
    ensures AllReady(TextChunks)
  {
    Keys();
  }

  lemma Assoc(a: string, b: string, c: string)
    ensures (a + b) + c == a + (b + c)
  {
  }

  lemma TextChunksJoined()
    ensures Joined(TextChunks) == Constants.TextItem
  {
    var p1, p2, p3, p4 := "{{value}}", "{{fraction?", "{{value? :}}", "{{fraction}}";
    var tail := "" + ":}}" + "{{title?" + " " + "{{title}}" + ":}}";
    TextTailJoined();
    assert Written(Hole("value")) == p1 && Written(Open("fraction")) == p2;
    assert Written(Cond("value", " ", "")) == p3 && Written(Hole("fraction")) == p4;
    Assoc(p1 + p2 + p3, p4, tail);
    Assoc(p1 + p2, p3, p4 + tail);
    Assoc(p1, p2, p3 + (p4 + tail));
  }

  /** The chunks after the fraction's placeholder write the rest of the template. */
  lemma TextTailJoined()
    ensures Joined(TextChunks.rest.rest.rest.rest) == "" + ":}}" + "{{title?" + " " + "{{title}}" + ":}}"
  {
    var p5, p6, p7, p8, p9 := ":}}", "{{title?", " ", "{{title}}", ":}}";
    assert Written(Open("title")) == p6 && Written(Hole("title")) == p8;
    assert p9 + "" == p9;
    Assoc("" + p5 + p6 + p7, p8, p9);
    Assoc("" + p5 + p6, p7, p8 + p9);
    Assoc("" + p5, p6, p7 + (p8 + p9));
    assert "" + p5 == p5;
  }

  /** A truthy branch stays plain when another plain one is put after it. */
  lemma PlainTruthyJoin(a: string, b: string)
    requires PlainTruthy(a) && PlainTruthy(b)
    ensures PlainTruthy(a + b) && NoBrace(a + b)
  {
    assert forall k :: 0 <= k < |a + b| ==> (a + b)[k] == if k < |a| then a[k] else b[k - |a|];
  }

  /** An opening, a branch and ":}}" together make a conditional placeholder
      with an empty falsy branch. */
  lemma OpenedAsConditioned(k: string, a: string, rest: string)
    ensures Opener(k) + (a + (":}}" + rest)) == Conditioned(k, a, "") + rest
  {
    assert Conditioned(k, a, "") == Opener(k) + a + ":}}";
    Assoc(Opener(k), a, ":}}");
    Assoc(Opener(k) + a, ":}}", rest);
    Assoc(Opener(k), a, ":}}" + rest);
  }

  /** The values the default text template shows, none of which opens a
      placeholder of its own. */
  predicate TextValues(ctx: Context) {
    NoBrace(Show(ctx, "value")) && PlainTruthy(Show(ctx, "fraction")) && PlainTruthy(Show(ctx, "title"))
  }

  /** The text template once its `{{key}}` placeholders are replaced. */
  function TextFirst(ctx: Context): Chunks {
    Then(Lit(Show(ctx, "value")), Then(Open("fraction"), Then(Cond("value", " ", ""),
    Then(Lit(Show(ctx, "fraction")), Then(Lit(":}}"), Then(Cond("title", " " + Show(ctx, "title"), ""), Done))))))
  }

  /** The space between value and fraction, and the title part. */
  function ValueSpace(ctx: Context): string {
    if Truthy(ctx, "value") then " " else ""
  }

  function TitlePart(ctx: Context): string {
    if Truthy(ctx, "title") then " " + Show(ctx, "title") else ""
  }

  /** The text template after the first pass. */
  function TextSecond(ctx: Context): Chunks {
    Then(Lit(Show(ctx, "value")), Then(Cond("fraction", ValueSpace(ctx) + Show(ctx, "fraction"), ""),
    Then(Lit(TitlePart(ctx)), Done)))
  }

  lemma TextFirstReady(ctx: Context)
    requires TextValues(ctx)
    ensures ConditionalReady(TextFirst(ctx))
  {
    var f, t := Show(ctx, "fraction"), Show(ctx, "title");
    Keys();
    PlainTruthyJoin(" ", t);
    PlainTruthyJoin(f, "");
    assert f + "" == f;
    var c6 := Then(Cond("title", " " + t, ""), Done);
    assert ConditionalReady(c6);
    var c5 := Then(Lit(":}}"), c6);
    assert ConditionalReady(c5);
    var c4 := Then(Lit(f), c5);
    assert ConditionalReady(c4);
    var c3 := Then(Cond("value", " ", ""), c4);
    assert ConditionalReady(c3);
    var c2 := Then(Open("fraction"), c3);
    assert ConditionalReady(c2);
  }

  lemma TextSecondReady(ctx: Context)
    requires TextValues(ctx)
    ensures ConditionalReady(TextSecond(ctx)) && AllReady(TextSecond(ctx))
  {
    var f, t := Show(ctx, "fraction"), Show(ctx, "title");
    Keys();
    PlainTruthyJoin(ValueSpace(ctx), f);
    PlainTruthyJoin(" ", t);
    var c3 := Then(Lit(TitlePart(ctx)), Done);
    assert ConditionalReady(c3) && AllReady(c3);
    var c2 := Then(Cond("fraction", ValueSpace(ctx) + f, ""), c3);
    assert ConditionalReady(c2) && AllReady(c2);
  }

  /** The simple scan of the first pass. */
  lemma TextSimplePass(ctx: Context)
    requires TextValues(ctx)
    ensures ReplaceSimple(Constants.TextItem, ctx, 0) == Joined(TextFirst(ctx))
  {
    var v, f, t := Show(ctx, "value"), Show(ctx, "fraction"), Show(ctx, "title");
    TextChunksJoined();
    TextChunksReady();
    SimpleChunks(Constants.TextItem, ctx, TextChunks);
    var img := SimpleImage(ctx);
    // the images of the chunks from the back, against the chunks of TextFirst
    var t8 := Then(Lit(":}}"), Done);
    var t7 := Then(Hole("title"), t8);
    var t6 := Then(Lit(" "), t7);
    var t5 := Then(Open("title"), t6);
    assert Images(img, t8) == ":}}" + "";
    assert Images(img, t7) == t + (":}}" + "");
    assert Images(img, t6) == " " + (t + (":}}" + ""));
    Assoc(" ", t, ":}}" + "");
    assert Images(img, t5) == Opener("title") + ((" " + t) + (":}}" + ""));
    OpenedAsConditioned("title", " " + t, "");
    var c6 := Then(Cond("title", " " + t, ""), Done);
    assert Images(img, t5) == Joined(c6);
    var t4 := Then(Lit(":}}"), t5);
    var c5 := Then(Lit(":}}"), c6);
    assert Images(img, t4) == Joined(c5);
    var t3 := Then(Hole("fraction"), t4);
    var c4 := Then(Lit(f), c5);
    assert Images(img, t3) == Joined(c4);
    var t2 := Then(Cond("value", " ", ""), t3);
    var c3 := Then(Cond("value", " ", ""), c4);
    assert Images(img, t2) == Joined(c3);
    var t1 := Then(Open("fraction"), t2);
    var c2 := Then(Open("fraction"), c3);
    assert Images(img, t1) == Joined(c2);
  }

  /** The conditional scan of the first pass. */
  lemma TextFirstPass(ctx: Context)
    requires TextValues(ctx)
    ensures Pass(Constants.TextItem, ctx) == Joined(TextSecond(ctx))
  {
    TextSimplePass(ctx);
    TextFirstReady(ctx);
    ConditionalChunks(Joined(TextFirst(ctx)), ctx, TextFirst(ctx));
    TextFirstImages(ctx);
  }

  /** The chunks of the first pass after the opening of the fraction section. */
  function TextTail(ctx: Context): Chunks {
    Then(Cond("value", " ", ""), Then(Lit(Show(ctx, "fraction")), Then(Lit(":}}"),
      Then(Cond("title", " " + Show(ctx, "title"), ""), Done))))
  }

  lemma TextTailImages(ctx: Context)
    ensures Images(ConditionalImage(ctx), TextTail(ctx)) ==
      ValueSpace(ctx) + (Show(ctx, "fraction") + (":}}" + (TitlePart(ctx) + "")))
  {
    var f, t := Show(ctx, "fraction"), Show(ctx, "title");
    var img := ConditionalImage(ctx);
    var c6 := Then(Cond("title", " " + t, ""), Done);
    assert Images(img, c6) == TitlePart(ctx) + "";
    var c5 := Then(Lit(":}}"), c6);
    assert Images(img, c5) == ":}}" + (TitlePart(ctx) + "");
    var c4 := Then(Lit(f), c5);
    assert Images(img, c4) == f + (":}}" + (TitlePart(ctx) + ""));
  }

  /** The conditional scan closes the fraction section over the first pass. */
  lemma TextFirstImages(ctx: Context)
    ensures Images(ConditionalImage(ctx), TextFirst(ctx)) == Joined(TextSecond(ctx))
  {
    var v, f, t := Show(ctx, "value"), Show(ctx, "fraction"), Show(ctx, "title");
    var sp, tt := ValueSpace(ctx), TitlePart(ctx);
    var img := ConditionalImage(ctx);
    var c3 := TextTail(ctx);
    TextTailImages(ctx);
    Assoc(sp, f, ":}}" + (tt + ""));
    OpenedAsConditioned("fraction", sp + f, tt + "");
    var c2 := Then(Open("fraction"), c3);
    var d2 := Then(Cond("fraction", sp + f, ""), Then(Lit(tt), Done));
    assert Images(img, c2) == Joined(d2);
    assert TextFirst(ctx) == Then(Lit(v), c2);
    assert TextSecond(ctx) == Then(Lit(v), d2);
  }

  lemma NoBraceJoin(a: string, b: string)
    requires NoBrace(a) && NoBrace(b)
    ensures NoBrace(a + b)
  {
    assert forall k :: 0 <= k < |a + b| ==> (a + b)[k] == if k < |a| then a[k] else b[k - |a|];
  }

  /** What the default text template shows. */
  function TextShown(ctx: Context): string {
    Show(ctx, "value") +
    (if Truthy(ctx, "fraction") then ValueSpace(ctx) + Show(ctx, "fraction") else "") +
    TitlePart(ctx)
  }

  /** The second pass resolves the fraction's conditional placeholder, which
      the first pass brought to light, and leaves nothing to replace. */
  lemma TextSecondPass(ctx: Context)
    requires TextValues(ctx)
    ensures !Settled(Joined(TextSecond(ctx)))
    ensures Pass(Joined(TextSecond(ctx)), ctx) == TextShown(ctx)
    ensures Plain(TextShown(ctx))
  {
    TextSecondImage(ctx);
    TextSecondUnsettled(ctx);
    TextShownPlain(ctx);
  }

  lemma TextSecondImage(ctx: Context)
    requires TextValues(ctx)
    ensures Pass(Joined(TextSecond(ctx)), ctx) == TextShown(ctx)
  {
    var v, f := Show(ctx, "value"), Show(ctx, "fraction");
    var sp, tt := ValueSpace(ctx), TitlePart(ctx);
    var cs := TextSecond(ctx);
    var r1 := Joined(cs);
    TextSecondReady(ctx);
    TextSecondPieces(ctx);
    SimpleChunks(r1, ctx, cs);
    ConditionalChunks(r1, ctx, cs);
    var fp := if Truthy(ctx, "fraction") then sp + f else "";
    Assoc(v, fp, tt);
  }

  /** What the second pass's chunks write, and what each scan makes of them. */
  lemma TextSecondPieces(ctx: Context)
    ensures var v, a, tt := Show(ctx, "value"), ValueSpace(ctx) + Show(ctx, "fraction"), TitlePart(ctx);
      var cs := TextSecond(ctx);
      Joined(cs) == v + (Conditioned("fraction", a, "") + (tt + "")) &&
      Images(SimpleImage(ctx), cs) == Joined(cs) &&
      Images(ConditionalImage(ctx), cs) == v + ((if Truthy(ctx, "fraction") then a else "") + (tt + ""))
  {
    var v, a, tt := Show(ctx, "value"), ValueSpace(ctx) + Show(ctx, "fraction"), TitlePart(ctx);
    var c3 := Then(Lit(tt), Done);
    var c2 := Then(Cond("fraction", a, ""), c3);
    var cs := Then(Lit(v), c2);
    assert cs == TextSecond(ctx);
    assert Joined(c3) == tt + "" && Images(SimpleImage(ctx), c3) == tt + "";
    assert Images(ConditionalImage(ctx), c3) == tt + "";
    assert Joined(c2) == Conditioned("fraction", a, "") + (tt + "");
    assert Images(SimpleImage(ctx), c2) == Joined(c2);
    assert Images(ConditionalImage(ctx), c2) == (if Truthy(ctx, "fraction") then a else "") + (tt + "");
    assert Joined(cs) == v + Joined(c2);
    assert Images(SimpleImage(ctx), cs) == v + Images(SimpleImage(ctx), c2);
    assert Images(ConditionalImage(ctx), cs) == v + Images(ConditionalImage(ctx), c2);
  }

  /** The conditional placeholder right after the value is still there. */
  lemma TextSecondUnsettled(ctx: Context)
    requires TextValues(ctx)
    ensures !Settled(Joined(TextSecond(ctx)))
  {
    var v, f := Show(ctx, "value"), Show(ctx, "fraction");
    var sp, tt := ValueSpace(ctx), TitlePart(ctx);
    var r1 := Joined(TextSecond(ctx));
    TextSecondReady(ctx);
    var a := sp + f;
    assert WrittenAt(r1, 0, r1);
    TextSecondPieces(ctx);
    WrittenSplit(r1, 0, v, Conditioned("fraction", a, "") + (tt + ""));
    WrittenSplit(r1, |v|, Conditioned("fraction", a, ""), tt + "");
    WrittenPlain(r1, 0, v);
    HasAfterPlain(r1, |v|, "fraction", a, "");
    SettledIsNoConditional(r1);
  }

  /** Nothing is left to open a placeholder. */
  lemma TextShownPlain(ctx: Context)
    requires TextValues(ctx)
    ensures Plain(TextShown(ctx))
  {
    var v, f, t := Show(ctx, "value"), Show(ctx, "fraction"), Show(ctx, "title");
    var sp, tt := ValueSpace(ctx), TitlePart(ctx);
    var fp := if Truthy(ctx, "fraction") then sp + f else "";
    PlainTruthyJoin(sp, f);
    PlainTruthyJoin(" ", t);
    assert NoBrace(fp) && NoBrace(tt);
    NoBraceJoin(v, fp);
    NoBraceJoin(v + fp, tt);
    NoBracePlain(TextShown(ctx));
  }

  /** How the default text template renders: the value, then the fraction
      when it is truthy (after a space when the value is truthy too), then a
      space and the title when the title is truthy. None of the shown values
      may contain '{', and the fraction and the title no ':' or backslash
      either. */
  lemma TextItemMeaning(ctx: Context)
    requires TextValues(ctx)
    ensures Expand(Constants.TextItem, ctx, MaxPasses) ==
      Show(ctx, "value") +
      (if Truthy(ctx, "fraction") then (if Truthy(ctx, "value") then " " else "") + Show(ctx, "fraction") else "") +
      (if Truthy(ctx, "title") then " " + Show(ctx, "title") else "")
  {
    TextFirstPass(ctx);
    TextSecondPass(ctx);
    var r1 := Joined(TextSecond(ctx));
    PlainUnchanged(TextShown(ctx), ctx, 0);
    ExpandOnce(Constants.TextItem, ctx, MaxPasses);
    ExpandOnce(r1, ctx, MaxPasses - 1);
  }

}

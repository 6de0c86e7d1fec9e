/**
 * The matcher as a specification: `JsonPath::trace` and the helpers it calls
 * (`walk` with its three callbacks, `slice`, the union loop) written as
 * mutually recursive functions. A call yields the matches it stores, in
 * order, as (path, node) pairs; `store` turns a match into a value or a
 * canonical path. The script evaluator `evalx` is a parameter.
 */
module Matcher {
  import opened Prelude
  import opened Document

  // ---------------------------------------------------------------------
  // The script evaluator and the outcome of a trace
  // ---------------------------------------------------------------------

  /**
   * What `evalx` computes for a script `(expr)` (the key it names) and for a
   * filter `?(expr)` (whether the member passes), given the script text, the
   * current node `@` and the document root `$`. `None` stands for the
   * exception a failing `eval` raises (a ParseError or an Error), which
   * propagates out of `evalx`. The evaluated code has no `return`, so a
   * successful `eval` yields null and `evalx`'s own `$res === false` throw
   * is never reached.
   */
  datatype Evaluator = Evaluator(
    key: (string, Node, Node) -> Option<string>,
    test: (string, Node, Node) -> Option<bool>)

  /**
   * Why a query stopped early: `eval` threw inside `evalx`; the script bound
   * ran out; the slice loop would never end (negative step below the end);
   * or `normalize` handed `tempFilters` the array of matches where it
   * declares a string, which PHP refuses with a TypeError.
   */
  datatype Error = EvalError(script: string) | OutOfFuel | Diverges | TypeError

  /** A call to `store`: the path text that reached `node`. */
  datatype Match = Match(path: string, node: Node)

  /** The matches stored, and the error that ended the trace, if any. */
  datatype Outcome = Outcome(matches: seq<Match>, error: Option<Error>)

  const Nothing: Outcome := Outcome([], None)

  function Fail(e: Error): Outcome
  {
    Outcome([], Some(e))
  }

  /** `a` followed by `b`; `b` only runs when `a` ended normally. */
  function Then(a: Outcome, b: Outcome): (r: Outcome)
    ensures a.error.Some? ==> r == a
    ensures a.error.None? ==> r.matches == a.matches + b.matches && r.error == b.error
  {
    if a.error.Some? then a else Outcome(a.matches + b.matches, b.error)
  }

  // ---------------------------------------------------------------------
  // `explode(";")`, `array_shift` and `implode(";")`
  // ---------------------------------------------------------------------

  /** The first token of a normalized expression. */
  function Loc(expr: string): (loc: string)
    ensures ';' !in loc
  {
    match IndexOf(expr, ';')
    case None => expr
    case Some(i) => expr[..i]
  }

  /** The tokens after the first one, joined again by ';'. */
  function Rest(expr: string): (x: string)
    ensures |expr| > 0 ==> |x| < |expr|
  {
    match IndexOf(expr, ';')
    case None => ""
    case Some(i) => expr[i + 1..]
  }

  /** `Loc` and `Rest` are what `explode`, `array_shift` and `implode` compute. */
  lemma LocRestExplode(expr: string)
    ensures Loc(expr) == Split(expr, ';')[0]
    ensures Rest(expr) == Join(Split(expr, ';')[1..], ";")
  {
    match IndexOf(expr, ';')
    case None =>
    case Some(i) =>
      JoinSplit(expr[i + 1..], ';');
  }

  lemma LocRestCons(loc: string, x: string)
    requires ';' !in loc
    ensures Loc(loc + ";" + x) == loc && Rest(loc + ";" + x) == x
  {
    IndexOfAfterFree(loc, ';', x);
    var s := loc + ";" + x;
    assert s[..|loc|] == loc;
    assert s[|loc| + 1..] == x;
  }

  /** The number of tokens left. */
  function Steps(expr: string): nat
    decreases |expr|
  {
    if expr == "" then 0 else 1 + Steps(Rest(expr))
  }

  lemma StepsCons(loc: string, x: string)
    requires ';' !in loc
    ensures Steps(loc + ";" + x) == 1 + Steps(x)
  {
    LocRestCons(loc, x);
  }

  // ---------------------------------------------------------------------
  // Token kinds, in the order `trace` tests them
  // ---------------------------------------------------------------------

  datatype Kind = KeyStep | Star | Descent | Script | Filter | Slice | Union | NoMatch

  /** `^\(.*?\)$` */
  predicate IsScript(loc: string)
  {
    |loc| >= 2 && loc[0] == '(' && loc[|loc| - 1] == ')'
  }

  /** `^\?\(.*?\)$` */
  predicate IsFilter(loc: string)
  {
    |loc| >= 3 && loc[0] == '?' && loc[1] == '(' && loc[|loc| - 1] == ')'
  }

  /** The branch of `trace` that handles token `loc` at node `val`. */
  function KindOf(loc: string, val: Node): Kind
  {
    if KeyExists(val, loc) then KeyStep
    else if loc == "*" then Star
    else if loc == ".." then Descent
    else if IsScript(loc) then Script
    else if IsFilter(loc) then Filter
    else if SliceGroups(loc).Some? then Slice
    else if ',' in loc then Union
    else NoMatch
  }

  /** Part of the termination measure: how far a token may still expand. */
  function Rank(k: Kind): nat
  {
    match k
    case Star => 3
    case Descent => 3
    case Filter => 3
    case Slice => 3
    case Union => 5
    case _ => 0
  }

  function TraceRank(expr: string, val: Node): nat
  {
    if expr == "" then 0 else Rank(KindOf(Loc(expr), val))
  }

  // ---------------------------------------------------------------------
  // Slices: `^(-?[0-9]*):(-?[0-9]*):?(-?[0-9]*)$`
  // ---------------------------------------------------------------------

  predicate IsNumeral(s: string)
  {
    (|s| > 0 && s[0] == '-' && AllDigits(s[1..])) || AllDigits(s)
  }

  /** The greedy `-?[0-9]*` at the start of `s`. */
  function Numeral(s: string): (d: string)
    ensures |d| <= |s| && s[..|d|] == d && IsNumeral(d)
  {
    if |s| > 0 && s[0] == '-' then
      var t := DigitRun(s[1..]);
      assert ("-" + t)[1..] == t;
      "-" + t
    else DigitRun(s)
  }

  /**
   * The second and third groups matched against `rest`, trying the second
   * group at length `n` and then shorter ones, the optional `:` first present
   * and then absent, as PCRE backtracks.
   */
  function SliceTail(rest: string, n: nat): (r: Option<(string, string)>)
    requires n <= |rest| && IsNumeral(rest[..n])
    ensures r.Some? ==> IsNumeral(r.value.0) && IsNumeral(r.value.1)
    decreases n
  {
    var g2, after := rest[..n], rest[n..];
    if |after| > 0 && after[0] == ':' && IsNumeral(after[1..]) then Some((g2, after[1..]))
    else if IsNumeral(after) then Some((g2, after))
    else if n == 0 then None
    else
      assert rest[..n - 1] == rest[..n][..n - 1];
      SliceTail(rest, n - 1)
  }

  /** The three groups of the slice pattern, when `loc` matches it. */
  function SliceGroups(loc: string): (r: Option<(string, string, string)>)
    ensures r.Some? ==> IsNumeral(r.value.0) && IsNumeral(r.value.1) && IsNumeral(r.value.2)
  {
    var g1 := Numeral(loc);
    if |g1| < |loc| && loc[|g1|] == ':' then
      var rest := loc[|g1| + 1..];
      match SliceTail(rest, |Numeral(rest)|)
      case Some((g2, g3)) => Some((g1, g2, g3))
      case None => None
    else None
  }

  /** PHP's `(int)` of a numeral ("" and "-" give 0). */
  function IntCast(s: string): int
    requires IsNumeral(s)
  {
    if |s| > 0 && s[0] == '-' then -(DigitsValue(s[1..]) as int) else DigitsValue(s)
  }

  function Min(a: int, b: int): int { if a <= b then a else b }

  function Max(a: int, b: int): int { if a >= b then a else b }

  /**
   * What `slice` computes before its loop. `start` is numeric; `first` is the
   * text the first iteration traces, which is the start group verbatim when
   * `min` returns it (leading zeros included).
   */
  datatype SlicePlan = SlicePlan(start: int, first: string, end: int, step: int)

  /** `count($v)` as PHP 7 computes it: 1 for a scalar other than null. */
  function Count(v: Node): nat
  {
    match v
    case Arr(ms) => |ms|
    case Scalar(Null) => 0
    case Scalar(_) => 1
  }

  function Plan(g1: string, g2: string, g3: string, length: nat): (p: SlicePlan)
    requires IsNumeral(g1) && IsNumeral(g2) && IsNumeral(g3)
    ensures 0 <= p.start <= length && 0 <= p.end <= length && p.step != 0
    ensures IsNumeral(p.first) && IntCast(p.first) == p.start
    ensures IntCast(g1) == 0 ==> p.start == 0
    ensures IntCast(g2) == 0 ==> p.end == length
    ensures IntCast(g3) == 0 ==> p.step == 1
    ensures IntCast(g1) < 0 ==> p.start == Max(0, IntCast(g1) + length)
    ensures IntCast(g2) < 0 ==> p.end == Max(0, IntCast(g2) + length)
    ensures IntCast(g1) >= 0 ==> p.start == Min(length, IntCast(g1))
    ensures IntCast(g2) > 0 ==> p.end == Min(length, IntCast(g2))
  {
    var s := IntCast(g1);
    var e := if IntCast(g2) != 0 then IntCast(g2) else length;
    var start := if s < 0 then Max(0, s + length) else Min(length, s);
    var first := if 0 < s < length then g1 else NatToString(start);
    var end := if e < 0 then Max(0, e + length) else Min(length, e);
    var step := if IntCast(g3) != 0 then IntCast(g3) else 1;
    NatToStringValue(start);
    assert NatToString(start)[0] != '-';
    SlicePlan(start, first, end, step)
  }

  /** The indices `start, start + step, ...` below `end`. */
  function Indices(i: nat, end: int, step: int): seq<nat>
    requires step > 0
    decreases end - i
  {
    if i >= end then [] else [i] + Indices(i + step, end, step)
  }

  /** Every index lies in `[i, end)`, and the `k`-th is `i + k * step`. */
  lemma {:induction false} IndicesSpan(i: nat, end: int, step: int)
    requires step > 0
    ensures forall k :: 0 <= k < |Indices(i, end, step)| ==>
              i <= Indices(i, end, step)[k] < end && Indices(i, end, step)[k] == i + k * step
    decreases end - i
  {
    if i < end {
      IndicesSpan(i + step, end, step);
      var r := Indices(i + step, end, step);
      assert Indices(i, end, step) == [i] + r;
      forall k | 0 < k < |Indices(i, end, step)|
        ensures i <= Indices(i, end, step)[k] < end && Indices(i, end, step)[k] == i + k * step
      {
        assert Indices(i, end, step)[k] == r[k - 1];
        assert i + step + (k - 1) * step == i + k * step;
      }
    }
  }

  /** The decimal numerals of non-negative integers. */
  function Numerals(ns: seq<nat>): (r: seq<string>)
    ensures |r| == |ns|
  {
    if |ns| == 0 then [] else [NatToString(ns[0])] + Numerals(ns[1..])
  }

  lemma {:induction false} NumeralsAt(ns: seq<nat>)
    ensures forall k :: 0 <= k < |ns| ==> Numerals(ns)[k] == NatToString(ns[k])
  {
    if |ns| > 0 {
      NumeralsAt(ns[1..]);
      assert Numerals(ns) == [NatToString(ns[0])] + Numerals(ns[1..]);
    }
  }

  /** The indices the slice loop visits, in order. */
  function SliceIndices(p: SlicePlan): seq<int>
    requires p.step > 0 && p.start >= 0
  {
    if p.start >= p.end then [] else [p.start] + Indices(p.start + p.step, p.end, p.step)
  }

  /** Every visited index lies in `[start, end)`, and the `k`-th is `start + k * step`. */
  lemma SliceIndicesSpan(p: SlicePlan)
    requires p.step > 0 && p.start >= 0
    ensures forall k :: 0 <= k < |SliceIndices(p)| ==>
              p.start <= SliceIndices(p)[k] < p.end && SliceIndices(p)[k] == p.start + k * p.step
  {
    if p.start < p.end {
      var r := Indices(p.start + p.step, p.end, p.step);
      IndicesSpan(p.start + p.step, p.end, p.step);
      assert SliceIndices(p) == [p.start] + r;
      forall k | 0 < k < |SliceIndices(p)|
        ensures p.start <= SliceIndices(p)[k] < p.end && SliceIndices(p)[k] == p.start + k * p.step
      {
        assert SliceIndices(p)[k] == r[k - 1];
        assert p.start + p.step + (k - 1) * p.step == p.start + k * p.step;
      }
    }
  }

  /** The tokens the slice loop traces, in order. */
  function SliceTokens(p: SlicePlan): (r: seq<string>)
    requires p.step > 0 && p.start >= 0 && IsNumeral(p.first)
  {
    if p.start >= p.end then [] else [p.first] + Numerals(Indices(p.start + p.step, p.end, p.step))
  }

  /** A union piece in front of `x` is one step, of rank below a union's. */
  lemma PieceRank(t: string, x: string, val: Node)
    requires ';' !in t && ',' !in t
    ensures Steps(t + ";" + x) == 1 + Steps(x) && TraceRank(t + ";" + x, val) <= 3
  {
    LocRestCons(t, x);
    assert KindOf(t, val) != Union;
  }

  /** A numeral is never a special token: `trace` takes it as a key or ignores it. */
  lemma NumeralRank(t: string, val: Node)
    requires IsNumeral(t)
    ensures ';' !in t && ',' !in t
    ensures Rank(KindOf(t, val)) == 0
  {
    assert forall k :: 0 <= k < |t| ==> IsDigit(t[k]) || t[k] == '-' by {
      if |t| > 0 && t[0] == '-' {
        assert forall k :: 1 <= k < |t| ==> t[k] == t[1..][k - 1];
      }
    }
  }

  // ---------------------------------------------------------------------
  // Unions: `preg_split("/'?,'?/", $loc)`
  // ---------------------------------------------------------------------

  /** Length of the separator match at the start of `s` (0: none). */
  function CommaLength(s: string): (n: nat)
    ensures n <= |s|
  {
    if |s| >= 2 && s[0] == '\'' && s[1] == ',' then (if |s| >= 3 && s[2] == '\'' then 3 else 2)
    else if |s| >= 1 && s[0] == ',' then (if |s| >= 2 && s[1] == '\'' then 2 else 1)
    else 0
  }

  /** `s` split at every separator; `piece` is the text since the last one. */
  function SplitUnion(piece: string, s: string): (r: seq<string>)
    requires ',' !in piece
    ensures |r| >= 1
    ensures forall k :: 0 <= k < |r| ==> ',' !in r[k]
    ensures forall c :: c !in s && c !in piece ==> forall k :: 0 <= k < |r| ==> c !in r[k]
    decreases |s|
  {
    if |s| == 0 then [piece]
    else if CommaLength(s) > 0 then
      var tail := s[CommaLength(s)..];
      assert forall c :: c in tail ==> c in s;
      [piece] + SplitUnion("", tail)
    else
      assert s[0] != ',';
      assert forall c :: c in piece + [s[0]] ==> c in piece || c in s;
      assert forall c :: c in s[1..] ==> c in s;
      SplitUnion(piece + [s[0]], s[1..])
  }

  function Pieces(loc: string): (r: seq<string>)
    ensures |r| >= 1
    ensures forall k :: 0 <= k < |r| ==> ',' !in r[k]
    ensures ';' !in loc ==> forall k :: 0 <= k < |r| ==> ';' !in r[k]
  {
    SplitUnion("", loc)
  }

  // ---------------------------------------------------------------------
  // Walking
  // ---------------------------------------------------------------------

  /** The callback `walk` is given. */
  datatype Callback = Asterisk | DoubleDot | QuestionMarkPrefix

  /** `preg_replace("/^\?\((.*?)\)$/", "$1", $l)`: the filter without `?(` and `)`. */
  function FilterBody(loc: string): string
    requires IsFilter(loc)
  {
    loc[2..|loc| - 1]
  }

  lemma ChildWellFormed(val: Node, k: string)
    requires WellFormed(val)
    ensures WellFormed(Child(val, k))
  {
  }

  lemma ChildShrinks(val: Node, k: string)
    requires KeyExists(val, k)
    ensures Size(Child(val, k)) < Size(val)
  {
    ChildSmaller(val, FindIndex(val.members, k).value);
  }

  /** With distinct keys, looking up a member's key finds that member. */
  lemma ChildAt(val: Node, i: nat)
    requires val.Arr? && DistinctKeys(val.members) && i < |val.members|
    ensures KeyExists(val, val.members[i].key)
    ensures Child(val, val.members[i].key) == val.members[i].value
  {
    var j := FindIndex(val.members, val.members[i].key);
    assert j.Some?;
  }

  /**
   * `trace($expr, $val, $path)`: the matches stored while `expr` is consumed
   * at `val`. `root` is the document (`$this->obj`); `fuel` bounds how many
   * scripts `(expr)` may be expanded.
   */
  function Trace(ev: Evaluator, root: Node, expr: string, val: Node, path: string, fuel: nat): Outcome
    requires WellFormed(val)
    decreases fuel, Size(val), Steps(expr), TraceRank(expr, val), 1
  {
    if expr == "" then Outcome([Match(path, val)], None)
    else TraceStep(ev, root, expr, val, path, fuel)
  }

  /** A token naming an existing member steps into that member. */
  lemma TraceKey(ev: Evaluator, root: Node, k: string, x: string, val: Node, path: string, fuel: nat)
    requires WellFormed(val) && ';' !in k && KeyExists(val, k)
    ensures Trace(ev, root, k + ";" + x, val, path, fuel) == Trace(ev, root, x, Child(val, k), path + ";" + k, fuel)
  {
    LocRestCons(k, x);
    ChildShrinks(val, k);
    assert TraceStep(ev, root, k + ";" + x, val, path, fuel) == Trace(ev, root, x, Child(val, k), path + ";" + k, fuel);
  }

  /**
   * `Trace` seen from outside its recursion: a fact stated over `TraceOf`
   * unfolds `Trace` one step less when it is assumed.
   */
  ghost function TraceOf(ev: Evaluator, root: Node, expr: string, val: Node, path: string, fuel: nat): Outcome
    requires WellFormed(val)
  {
    Trace(ev, root, expr, val, path, fuel)
  }

  /** A script token is traced by the script branch. */
  lemma ScriptUnfold(ev: Evaluator, root: Node, expr: string, val: Node, path: string, fuel: nat)
    requires WellFormed(val) && expr != "" && KindOf(Loc(expr), val) == Script
    ensures TraceOf(ev, root, expr, val, path, fuel) == ScriptOutcome(ev, root, Loc(expr), Rest(expr), val, path, fuel)
  {
    assert Trace(ev, root, expr, val, path, fuel) == ScriptOutcome(ev, root, Loc(expr), Rest(expr), val, path, fuel);
  }

  /** The slice branch of `trace`. */
  lemma SliceCase(ev: Evaluator, root: Node, expr: string, val: Node, path: string, fuel: nat)
    requires WellFormed(val) && expr != "" && KindOf(Loc(expr), val) == Slice
    ensures SliceGroups(Loc(expr)).Some?
    ensures TraceOf(ev, root, expr, val, path, fuel) == SliceOutcome(ev, root, Loc(expr), Rest(expr), val, path, fuel)
  {
    assert Trace(ev, root, expr, val, path, fuel) == SliceOutcome(ev, root, Loc(expr), Rest(expr), val, path, fuel);
  }

  /** A script token whose key evaluates is traced as that key, one script fewer. */
  lemma ScriptTrace(ev: Evaluator, root: Node, expr: string, val: Node, path: string, fuel: nat, k: string)
    requires WellFormed(val) && expr != "" && KindOf(Loc(expr), val) == Script
    requires ev.key(Loc(expr), val, root).Some? && k == ev.key(Loc(expr), val, root).value && fuel > 0
    ensures Trace(ev, root, expr, val, path, fuel) == Trace(ev, root, k + ";" + Rest(expr), val, path, fuel - 1)
  {
    ScriptUnfold(ev, root, expr, val, path, fuel);
  }

  /** The `*` branch of `trace`: walk the members with the `*` callback. */
  lemma StarCase(ev: Evaluator, root: Node, expr: string, val: Node, path: string, fuel: nat)
    requires WellFormed(val) && expr != "" && KindOf(Loc(expr), val) == Star
    ensures TraceOf(ev, root, expr, val, path, fuel) == Walk(ev, root, Asterisk, Loc(expr), Rest(expr), val, path, fuel, 0)
  {
    assert Trace(ev, root, expr, val, path, fuel) == Walk(ev, root, Asterisk, Loc(expr), Rest(expr), val, path, fuel, 0);
  }

  /** The filter branch of `trace`: walk the members with the `?(...)` callback. */
  lemma FilterCase(ev: Evaluator, root: Node, expr: string, val: Node, path: string, fuel: nat)
    requires WellFormed(val) && expr != "" && KindOf(Loc(expr), val) == Filter
    ensures TraceOf(ev, root, expr, val, path, fuel) == Walk(ev, root, QuestionMarkPrefix, Loc(expr), Rest(expr), val, path, fuel, 0)
  {
    assert Trace(ev, root, expr, val, path, fuel) == Walk(ev, root, QuestionMarkPrefix, Loc(expr), Rest(expr), val, path, fuel, 0);
  }

  /** The union branch of `trace`: each piece in turn. */
  lemma UnionCase(ev: Evaluator, root: Node, expr: string, val: Node, path: string, fuel: nat)
    requires WellFormed(val) && expr != "" && KindOf(Loc(expr), val) == Union
    ensures TraceOf(ev, root, expr, val, path, fuel) == TraceEach(ev, root, Pieces(Loc(expr)), 0, Rest(expr), val, path, fuel)
  {
    assert Trace(ev, root, expr, val, path, fuel) == TraceEach(ev, root, Pieces(Loc(expr)), 0, Rest(expr), val, path, fuel);
  }

  /** A token of no kind matches nothing. */
  lemma NoMatchCase(ev: Evaluator, root: Node, expr: string, val: Node, path: string, fuel: nat)
    requires WellFormed(val) && expr != "" && KindOf(Loc(expr), val) == NoMatch
    ensures TraceOf(ev, root, expr, val, path, fuel) == Nothing
  {
    assert Trace(ev, root, expr, val, path, fuel) == Nothing;
  }

  /** `trace` on a non-empty expression: dispatch on the kind of its first token. */
  function TraceStep(ev: Evaluator, root: Node, expr: string, val: Node, path: string, fuel: nat): Outcome
    requires WellFormed(val) && expr != ""
    decreases fuel, Size(val), Steps(expr), TraceRank(expr, val), 0
  {
    var loc, x := Loc(expr), Rest(expr);
    match KindOf(loc, val)
    case KeyStep =>
      ChildShrinks(val, loc);
      Trace(ev, root, x, Child(val, loc), path + ";" + loc, fuel)
    case Star =>
      Walk(ev, root, Asterisk, loc, x, val, path, fuel, 0)
    case Descent =>
      Then(Trace(ev, root, x, val, path, fuel), Walk(ev, root, DoubleDot, loc, x, val, path, fuel, 0))
    case Script =>
      ScriptOutcome(ev, root, loc, x, val, path, fuel)
    case Filter =>
      Walk(ev, root, QuestionMarkPrefix, loc, x, val, path, fuel, 0)
    case Slice =>
      SliceOutcome(ev, root, loc, x, val, path, fuel)
    case Union =>
      TraceEach(ev, root, Pieces(loc), 0, x, val, path, fuel)
    case NoMatch => Nothing
  }
  /** The script branch of `trace`: `evalx` gives the key, traced in the token's place. */
  function ScriptOutcome(ev: Evaluator, root: Node, loc: string, x: string, val: Node, path: string, fuel: nat): Outcome
    requires WellFormed(val)
    decreases fuel, Size(val), Steps(x)
  {
    match ev.key(loc, val, root)
    case None => Fail(EvalError(loc))
    case Some(k) =>
      if fuel == 0 then Fail(OutOfFuel) else Trace(ev, root, k + ";" + x, val, path, fuel - 1)
  }

  /** The slice branch of `trace`: a negative step below the end never stops. */
  function SliceOutcome(ev: Evaluator, root: Node, loc: string, x: string, val: Node, path: string, fuel: nat): Outcome
    requires WellFormed(val) && SliceGroups(loc).Some?
    decreases fuel, Size(val), 1 + Steps(x), 2
  {
    var (g1, g2, g3) := SliceGroups(loc).value;
    var p := Plan(g1, g2, g3, Count(val));
    if p.step < 0 then (if p.start < p.end then Fail(Diverges) else Nothing)
    else SliceLoop(ev, root, p, p.start, x, val, path, fuel)
  }

  /** The script branch of `trace`. */
  lemma ScriptCase(ev: Evaluator, root: Node, expr: string, val: Node, path: string, fuel: nat)
    requires WellFormed(val) && expr != "" && KindOf(Loc(expr), val) == Script
    ensures var loc, x, o := Loc(expr), Rest(expr), Trace(ev, root, expr, val, path, fuel);
      && (ev.key(loc, val, root).None? ==> o == Fail(EvalError(loc)))
      && (ev.key(loc, val, root).Some? && fuel == 0 ==> o == Fail(OutOfFuel))
      && (ev.key(loc, val, root).Some? && fuel > 0 ==>
            o == Trace(ev, root, ev.key(loc, val, root).value + ";" + x, val, path, fuel - 1))
  {
    ScriptUnfold(ev, root, expr, val, path, fuel);
  }


  /** `walk`: the callback for every member from the `i`-th on, in order. */
  function Walk(ev: Evaluator, root: Node, f: Callback, loc: string, x: string, val: Node,
                path: string, fuel: nat, i: nat): Outcome
    requires WellFormed(val)
    requires f.QuestionMarkPrefix? ==> IsFilter(loc)
    decreases fuel, Size(val), 1 + Steps(x), 2, if val.Arr? then |val.members| - i else 0
  {
    if !val.Arr? || i >= |val.members| then Nothing
    else Then(Call(ev, root, f, i, loc, x, val, path, fuel), Walk(ev, root, f, loc, x, val, path, fuel, i + 1))
  }

  /** One callback, for member `i` of `val` (`$m` is its key, `$v` is `val`). */
  function Call(ev: Evaluator, root: Node, f: Callback, i: nat, loc: string, x: string, val: Node,
                path: string, fuel: nat): Outcome
    requires WellFormed(val) && val.Arr? && i < |val.members|
    requires f.QuestionMarkPrefix? ==> IsFilter(loc)
    decreases fuel, Size(val), 1 + Steps(x), 1, 0
  {
    var m := val.members[i].key;
    ChildAt(val, i);
    StepsCons(m, x);
    LocRestCons(m, x);
    match f
    case Asterisk => Trace(ev, root, m + ";" + x, val, path, fuel)
    case DoubleDot =>
      var v := Child(val, m);
      ChildShrinks(val, m);
      if v.Arr? then Trace(ev, root, "..;" + x, v, path + ";" + m, fuel) else Nothing
    case QuestionMarkPrefix =>
      match ev.test(FilterBody(loc), Child(val, m), root)
      case None => Fail(EvalError(FilterBody(loc)))
      case Some(pass) => if pass then Trace(ev, root, m + ";" + x, val, path, fuel) else Nothing
  }

  /** The loop of the union branch and of `slice`: each token with the same tail. */
  function TraceEach(ev: Evaluator, root: Node, tokens: seq<string>, i: nat, x: string, val: Node,
                     path: string, fuel: nat): Outcome
    requires WellFormed(val)
    requires forall k :: 0 <= k < |tokens| ==> ';' !in tokens[k] && ',' !in tokens[k]
    decreases fuel, Size(val), 1 + Steps(x), 4, |tokens| - i
  {
    if i >= |tokens| then Nothing
    else
      var t := tokens[i];
      StepsCons(t, x);
      LocRestCons(t, x);
      Then(Trace(ev, root, t + ";" + x, val, path, fuel), TraceEach(ev, root, tokens, i + 1, x, val, path, fuel))
  }

  /** The token the `for` loop of `slice` traces at index `i`: the start's own text first. */
  function SliceToken(p: SlicePlan, i: int): (t: string)
    requires p.start >= 0 && i >= p.start && IsNumeral(p.first)
    ensures IsNumeral(t)
  {
    if i == p.start then p.first else NatToString(i)
  }

  /**
   * The `for` loop of `slice` from index `i` on. The first iteration traces
   * the start as `min` returned it (`p.first`), later ones the integer.
   */
  function SliceLoop(ev: Evaluator, root: Node, p: SlicePlan, i: int, x: string, val: Node,
                     path: string, fuel: nat): Outcome
    requires WellFormed(val)
    requires p.step > 0 && p.start >= 0 && i >= p.start && IsNumeral(p.first)
    decreases fuel, Size(val), 1 + Steps(x), 2, if i < p.end then p.end - i else 0
  {
    if i >= p.end then Nothing
    else
      var t := SliceToken(p, i);
      NumeralRank(t, val);
      StepsCons(t, x);
      LocRestCons(t, x);
      Then(Trace(ev, root, t + ";" + x, val, path, fuel), SliceLoop(ev, root, p, i + p.step, x, val, path, fuel))
  }

  /** One pass of the loop of `slice`. */
  lemma SliceLoopUnfold(ev: Evaluator, root: Node, p: SlicePlan, i: int, t: string, x: string, val: Node, path: string, fuel: nat)
    requires WellFormed(val) && p.step > 0 && p.start >= 0 && i >= p.start && IsNumeral(p.first) && i < p.end
    requires t == SliceToken(p, i)
    ensures SliceLoop(ev, root, p, i, x, val, path, fuel)
         == Then(TraceOf(ev, root, t + ";" + x, val, path, fuel), SliceLoop(ev, root, p, i + p.step, x, val, path, fuel))
  {
  }

  // ---------------------------------------------------------------------
  // `asPath` and `store`
  // ---------------------------------------------------------------------

  /** `^[0-9*]+$`: a segment `asPath` writes without quotes. */
  predicate IndexLike(seg: string)
  {
    |seg| >= 1 && forall k :: 0 <= k < |seg| ==> IsDigit(seg[k]) || seg[k] == '*'
  }

  /** One segment in canonical notation: `[seg]` or `['seg']`. */
  function Bracket(seg: string): string
  {
    if IndexLike(seg) then "[" + seg + "]" else "['" + seg + "']"
  }

  function Brackets(segs: seq<string>): string
  {
    if |segs| == 0 then "" else Bracket(segs[0]) + Brackets(segs[1..])
  }

  /** `asPath($path)`: `$`, then every segment after the first, bracketed. */
  function AsPath(path: string): (r: string)
    ensures |r| >= 1 && r[0] == '$'
  {
    "$" + Brackets(Split(path, ';')[1..])
  }

  const ValueType: string := "VALUE"
  const PathType: string := "PATH"

  /** `isValidResultType`: `in_array` over `VALUE` and `PATH`. */
  predicate IsValidResultType(t: string)
  {
    t == ValueType || t == PathType
  }

  /** What `store($p, $v)` pushes: nothing for an empty path (`if ($p)`). */
  function Stored(resultType: string, m: Match): (r: seq<Entry>)
    ensures |r| <= 1
  {
    if EmptyString(m.path) then []
    else if resultType == PathType then [Text(AsPath(m.path))]
    else [Value(m.node)]
  }

  /** The accumulator contents a sequence of matches produces. */
  function StoredAll(resultType: string, ms: seq<Match>): (r: seq<Entry>)
    ensures |r| <= |ms|
  {
    if |ms| == 0 then [] else Stored(resultType, ms[0]) + StoredAll(resultType, ms[1..])
  }
}

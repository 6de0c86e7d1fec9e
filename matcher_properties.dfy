/**
 * What the matcher promises, stated against reference definitions that do
 * not go through `walk`, the callbacks or a second key lookup: the order in
 * which `*`, `..`, filters, unions and slices visit a node's members, and the
 * fact that every stored path leads from the document to the stored value.
 */
module MatcherProperties {
  import opened Prelude
  import opened Document
  import opened Matcher

  // ---------------------------------------------------------------------
  // Sequencing
  // ---------------------------------------------------------------------

  /**
   * Traces in sequence form a monoid with `Nothing` as unit, and a failure
   * absorbs whatever would have run after it: PHP's statements one after
   * another, where an exception skips the rest.
   */
  lemma ThenLaws(a: Outcome, b: Outcome, c: Outcome, e: Error)
    ensures Then(Then(a, b), c) == Then(a, Then(b, c))
    ensures Then(Nothing, b) == b && Then(a, Nothing) == a
    ensures Then(Fail(e), b) == Fail(e)
  {
    assert a.matches + [] == a.matches;
    assert [] + b.matches == b.matches;
    assert a.matches + b.matches + c.matches == a.matches + (b.matches + c.matches);
  }

  // ---------------------------------------------------------------------
  // Direct keys
  // ---------------------------------------------------------------------

  /**
   * A token naming an existing key of an array is a child step, whatever
   * else it looks like (`*`, `..`, a slice, ...): the tail is traced at the
   * child and the path grows by `;key`.
   */
  lemma KeyPrecedence(ev: Evaluator, root: Node, loc: string, x: string, val: Node, path: string, fuel: nat)
    requires WellFormed(val) && KeyExists(val, loc) && ';' !in loc
    ensures Trace(ev, root, loc + ";" + x, val, path, fuel)
         == Trace(ev, root, x, Child(val, loc), path + ";" + loc, fuel)
  {
    LocRestCons(loc, x);
  }

  /** The empty expression stores exactly one match: the current node at the current path. */
  lemma TerminalStores(ev: Evaluator, root: Node, val: Node, path: string, fuel: nat)
    requires WellFormed(val)
    ensures Trace(ev, root, "", val, path, fuel).matches == [Match(path, val)]
    ensures Trace(ev, root, "", val, path, fuel).error.None?
  {
  }

  // ---------------------------------------------------------------------
  // Members in iteration order
  // ---------------------------------------------------------------------

  /**
   * Reference definition of a walk: the members of `ms` in order, each
   * traced with `x` at its own value. `Asterisk` takes all of them,
   * `DoubleDot` only the arrays, `QuestionMarkPrefix` those the filter
   * `body` accepts.
   */
  function EachChild(ev: Evaluator, root: Node, f: Callback, body: string, x: string,
                     ms: seq<Member>, path: string, fuel: nat): Outcome
    requires forall k :: 0 <= k < |ms| ==> WellFormed(ms[k].value)
  {
    if |ms| == 0 then Nothing
    else Then(Visit(ev, root, f, body, x, ms[0], path, fuel), EachChild(ev, root, f, body, x, ms[1..], path, fuel))
  }

  /** What the reference walk does at one member. */
  function Visit(ev: Evaluator, root: Node, f: Callback, body: string, x: string,
                 member: Member, path: string, fuel: nat): Outcome
    requires WellFormed(member.value)
  {
    var k, v := member.key, member.value;
    match f
    case Asterisk => Trace(ev, root, x, v, path + ";" + k, fuel)
    case DoubleDot => if v.Arr? then Trace(ev, root, x, v, path + ";" + k, fuel) else Nothing
    case QuestionMarkPrefix =>
      match ev.test(body, v, root)
      case None => Fail(EvalError(body))
      case Some(pass) => if pass then Trace(ev, root, x, v, path + ";" + k, fuel) else Nothing
  }

  /** The tail each callback traces at a member. */
  function CallbackTail(f: Callback, x: string): string
  {
    if f.DoubleDot? then "..;" + x else x
  }

  function CallbackBody(f: Callback, loc: string): string
  {
    if f.QuestionMarkPrefix? && IsFilter(loc) then FilterBody(loc) else ""
  }

  /** One callback is the head of the reference walk. */
  lemma CallIsHead(ev: Evaluator, root: Node, f: Callback, i: nat, loc: string, x: string,
                   val: Node, path: string, fuel: nat)
    requires WellFormed(val) && val.Arr? && i < |val.members|
    requires f.QuestionMarkPrefix? ==> IsFilter(loc)
    ensures Call(ev, root, f, i, loc, x, val, path, fuel)
         == Visit(ev, root, f, CallbackBody(f, loc), CallbackTail(f, x), val.members[i], path, fuel)
  {
    var m := val.members[i].key;
    ChildAt(val, i);
    LocRestCons(m, x);
    if !f.DoubleDot? {
      TraceKey(ev, root, m, x, val, path, fuel);
    }
  }

  lemma {:induction false} WalkIsEachChild(ev: Evaluator, root: Node, f: Callback, loc: string, x: string,
                                           val: Node, path: string, fuel: nat, i: nat)
    requires WellFormed(val) && val.Arr? && i <= |val.members|
    requires f.QuestionMarkPrefix? ==> IsFilter(loc)
    ensures Walk(ev, root, f, loc, x, val, path, fuel, i)
         == EachChild(ev, root, f, CallbackBody(f, loc), CallbackTail(f, x), val.members[i..], path, fuel)
    decreases |val.members| - i
  {
    if i < |val.members| {
      WalkIsEachChild(ev, root, f, loc, x, val, path, fuel, i + 1);
      CallIsHead(ev, root, f, i, loc, x, val, path, fuel);
      assert val.members[i..][1..] == val.members[i + 1..];
      assert val.members[i..][0] == val.members[i];
    }
  }

  /** `*` traces the tail at every member, in iteration order. */
  lemma StarOrder(ev: Evaluator, root: Node, x: string, val: Node, path: string, fuel: nat)
    requires WellFormed(val) && val.Arr? && !KeyExists(val, "*")
    ensures Trace(ev, root, "*;" + x, val, path, fuel)
         == EachChild(ev, root, Asterisk, "", x, val.members, path, fuel)
  {
    LocRestCons("*", x);
    assert KindOf("*", val) == Star;
    assert "*;" + x == "*" + ";" + x;
    StarCase(ev, root, "*;" + x, val, path, fuel);
    WalkIsEachChild(ev, root, Asterisk, "*", x, val, path, fuel, 0);
    assert val.members[0..] == val.members;
  }

  /**
   * `..` traces the tail at the current node first, then `..;tail` at every
   * member that is an array, in iteration order; so the current node's
   * matches come before its descendants'.
   */
  lemma DescendantOrder(ev: Evaluator, root: Node, x: string, val: Node, path: string, fuel: nat)
    requires WellFormed(val) && val.Arr? && !KeyExists(val, "..")
    ensures Trace(ev, root, "..;" + x, val, path, fuel)
         == Then(Trace(ev, root, x, val, path, fuel),
                 EachChild(ev, root, DoubleDot, "", "..;" + x, val.members, path, fuel))
    ensures Trace(ev, root, x, val, path, fuel).error.None? ==>
              Trace(ev, root, x, val, path, fuel).matches <= Trace(ev, root, "..;" + x, val, path, fuel).matches
  {
    DescentUnfold(ev, root, x, val, path, fuel);
    WalkIsEachChild(ev, root, DoubleDot, "..", x, val, path, fuel, 0);
    assert val.members[0..] == val.members;
  }

  /** The descent branch of `trace`, unfolded once. */
  lemma DescentUnfold(ev: Evaluator, root: Node, x: string, val: Node, path: string, fuel: nat)
    requires WellFormed(val) && !KeyExists(val, "..")
    ensures Trace(ev, root, "..;" + x, val, path, fuel)
         == Then(Trace(ev, root, x, val, path, fuel), Walk(ev, root, DoubleDot, "..", x, val, path, fuel, 0))
  {
    var e := ".." + ";" + x;
    assert e == "..;" + x;
    LocRestCons("..", x);
    assert KindOf("..", val) == Descent;
    DescentBranch(ev, root, e, val, path, fuel);
  }

  lemma DescentBranch(ev: Evaluator, root: Node, e: string, val: Node, path: string, fuel: nat)
    requires WellFormed(val) && e != "" && KindOf(Loc(e), val) == Descent
    ensures Trace(ev, root, e, val, path, fuel)
         == Then(Trace(ev, root, Rest(e), val, path, fuel), Walk(ev, root, DoubleDot, Loc(e), Rest(e), val, path, fuel, 0))
  {
  }

  /** A filter traces the tail at the members the evaluator accepts, in order. */
  lemma FilterOrder(ev: Evaluator, root: Node, loc: string, x: string, val: Node, path: string, fuel: nat)
    requires WellFormed(val) && val.Arr? && ';' !in loc && IsFilter(loc) && KindOf(loc, val) == Filter
    ensures Trace(ev, root, loc + ";" + x, val, path, fuel)
         == EachChild(ev, root, QuestionMarkPrefix, FilterBody(loc), x, val.members, path, fuel)
  {
    LocRestCons(loc, x);
    WalkIsEachChild(ev, root, QuestionMarkPrefix, loc, x, val, path, fuel, 0);
    assert val.members[0..] == val.members;
  }

  // ---------------------------------------------------------------------
  // Unions and slices: a list of tokens, each with the same tail
  // ---------------------------------------------------------------------

  /** Reference definition: each token in turn, followed by the same tail. */
  function TokensTrace(ev: Evaluator, root: Node, tokens: seq<string>, x: string, val: Node,
                       path: string, fuel: nat): Outcome
    requires WellFormed(val)
  {
    if |tokens| == 0 then Nothing
    else Then(Trace(ev, root, tokens[0] + ";" + x, val, path, fuel), TokensTrace(ev, root, tokens[1..], x, val, path, fuel))
  }

  lemma {:induction false} TraceEachIsTokens(ev: Evaluator, root: Node, tokens: seq<string>, i: nat, x: string,
                                             val: Node, path: string, fuel: nat)
    requires WellFormed(val) && i <= |tokens|
    requires forall k :: 0 <= k < |tokens| ==> ';' !in tokens[k] && ',' !in tokens[k]
    ensures TraceEach(ev, root, tokens, i, x, val, path, fuel) == TokensTrace(ev, root, tokens[i..], x, val, path, fuel)
    decreases |tokens| - i
  {
    if i < |tokens| {
      TraceEachIsTokens(ev, root, tokens, i + 1, x, val, path, fuel);
      assert tokens[i..][1..] == tokens[i + 1..];
    }
  }

  /** A union traces its elements, split on `'?,'?`, in the order listed. */
  lemma UnionTraces(ev: Evaluator, root: Node, loc: string, x: string, val: Node, path: string, fuel: nat)
    requires WellFormed(val) && ';' !in loc && KindOf(loc, val) == Union
    ensures Trace(ev, root, loc + ";" + x, val, path, fuel) == TokensTrace(ev, root, Pieces(loc), x, val, path, fuel)
  {
    LocRestCons(loc, x);
    TraceEachIsTokens(ev, root, Pieces(loc), 0, x, val, path, fuel);
    assert Pieces(loc)[0..] == Pieces(loc);
  }

  /** Reference definition: the tail at the child under each key, in the order given. */
  function KeysTrace(ev: Evaluator, root: Node, keys: seq<string>, x: string, val: Node,
                     path: string, fuel: nat): Outcome
    requires WellFormed(val)
  {
    if |keys| == 0 then Nothing
    else Then(Trace(ev, root, x, Child(val, keys[0]), path + ";" + keys[0], fuel),
              KeysTrace(ev, root, keys[1..], x, val, path, fuel))
  }

  lemma {:induction false} TokensOfKeys(ev: Evaluator, root: Node, keys: seq<string>, x: string, val: Node,
                                        path: string, fuel: nat)
    requires WellFormed(val)
    requires forall k :: 0 <= k < |keys| ==> ';' !in keys[k] && KeyExists(val, keys[k])
    ensures TokensTrace(ev, root, keys, x, val, path, fuel) == KeysTrace(ev, root, keys, x, val, path, fuel)
    decreases |keys|
  {
    if |keys| > 0 {
      KeyPrecedence(ev, root, keys[0], x, val, path, fuel);
      TokensOfKeys(ev, root, keys[1..], x, val, path, fuel);
    }
  }

  /**
   * A union of existing keys yields the children's matches in the order the
   * union lists them, not in the order of the node's members.
   */
  lemma UnionOfKeys(ev: Evaluator, root: Node, loc: string, x: string, val: Node, path: string, fuel: nat)
    requires WellFormed(val) && ';' !in loc && KindOf(loc, val) == Union
    requires forall k :: 0 <= k < |Pieces(loc)| ==> KeyExists(val, Pieces(loc)[k])
    ensures Trace(ev, root, loc + ";" + x, val, path, fuel) == KeysTrace(ev, root, Pieces(loc), x, val, path, fuel)
  {
    UnionTraces(ev, root, loc, x, val, path, fuel);
    TokensOfKeys(ev, root, Pieces(loc), x, val, path, fuel);
  }

  /** The rest of the `for` loop of `slice` from index `i`. */
  ghost function LoopFrom(ev: Evaluator, root: Node, p: SlicePlan, i: int, x: string, val: Node, path: string, fuel: nat): Outcome
    requires WellFormed(val)
    requires p.step > 0 && p.start >= 0 && i >= p.start && IsNumeral(p.first)
  {
    SliceLoop(ev, root, p, i, x, val, path, fuel)
  }

  /** The tokens `i`, `i + step`, ... below `end`, traced one after the other. */
  ghost function TokensFrom(ev: Evaluator, root: Node, i: nat, end: int, step: int, x: string, val: Node, path: string, fuel: nat): Outcome
    requires WellFormed(val) && step > 0
  {
    TokensTrace(ev, root, Numerals(Indices(i, end, step)), x, val, path, fuel)
  }

  /** Tracing the numeral token `i` in front of `x`. */
  ghost function NumeralAt(ev: Evaluator, root: Node, i: nat, x: string, val: Node, path: string, fuel: nat): Outcome
    requires WellFormed(val)
  {
    Trace(ev, root, NatToString(i) + ";" + x, val, path, fuel)
  }

  lemma SliceLoopStep(ev: Evaluator, root: Node, p: SlicePlan, i: int, x: string, val: Node, path: string, fuel: nat)
    requires WellFormed(val)
    requires p.step > 0 && p.start >= 0 && p.start < i < p.end && IsNumeral(p.first)
    ensures LoopFrom(ev, root, p, i, x, val, path, fuel)
         == Then(NumeralAt(ev, root, i, x, val, path, fuel), LoopFrom(ev, root, p, i + p.step, x, val, path, fuel))
  {
  }

  lemma TokensStep(ev: Evaluator, root: Node, i: nat, end: int, step: int, x: string, val: Node, path: string, fuel: nat)
    requires WellFormed(val) && step > 0 && i < end
    ensures TokensFrom(ev, root, i, end, step, x, val, path, fuel)
         == Then(NumeralAt(ev, root, i, x, val, path, fuel), TokensFrom(ev, root, i + step, end, step, x, val, path, fuel))
  {
    var ns := Indices(i, end, step);
    assert ns == [i] + Indices(i + step, end, step);
    assert Numerals(ns) == [NatToString(i)] + Numerals(Indices(i + step, end, step));
  }

  lemma TokensDone(ev: Evaluator, root: Node, i: nat, end: int, step: int, x: string, val: Node, path: string, fuel: nat)
    requires WellFormed(val) && step > 0 && i >= end
    ensures TokensFrom(ev, root, i, end, step, x, val, path, fuel) == Nothing
  {
    assert Indices(i, end, step) == [];
  }

  lemma {:induction false} LoopIsTokens(ev: Evaluator, root: Node, p: SlicePlan, i: int, x: string, val: Node,
                                        path: string, fuel: nat)
    requires WellFormed(val)
    requires p.step > 0 && p.start >= 0 && i > p.start && IsNumeral(p.first)
    ensures LoopFrom(ev, root, p, i, x, val, path, fuel) == TokensFrom(ev, root, i, p.end, p.step, x, val, path, fuel)
    decreases p.end - i
  {
    if i < p.end {
      LoopIsTokens(ev, root, p, i + p.step, x, val, path, fuel);
      SliceLoopStep(ev, root, p, i, x, val, path, fuel);
      TokensStep(ev, root, i, p.end, p.step, x, val, path, fuel);
    } else {
      TokensDone(ev, root, i, p.end, p.step, x, val, path, fuel);
    }
  }

  /**
   * Past its first index, the `for` loop of `slice` traces the numerals
   * `i`, `i + step`, ... below `end`, in that order.
   */
  lemma SliceLoopIsTokens(ev: Evaluator, root: Node, p: SlicePlan, i: int, x: string, val: Node,
                          path: string, fuel: nat)
    requires WellFormed(val)
    requires p.step > 0 && p.start >= 0 && i > p.start && IsNumeral(p.first)
    ensures SliceLoop(ev, root, p, i, x, val, path, fuel)
         == TokensTrace(ev, root, Numerals(Indices(i, p.end, p.step)), x, val, path, fuel)
  {
    LoopIsTokens(ev, root, p, i, x, val, path, fuel);
  }

  /** The plan `slice` computes for token `loc` at node `val`. */
  function PlanOf(loc: string, val: Node): SlicePlan
    requires SliceGroups(loc).Some?
  {
    var (g1, g2, g3) := SliceGroups(loc).value;
    Plan(g1, g2, g3, Count(val))
  }

  /**
   * A slice with a positive step traces its index tokens in increasing
   * order, each with the same tail; a negative step below the end never
   * terminates.
   */
  lemma SliceTraces(ev: Evaluator, root: Node, loc: string, x: string, val: Node, path: string, fuel: nat)
    requires WellFormed(val) && ';' !in loc && KindOf(loc, val) == Slice
    ensures PlanOf(loc, val).step > 0 ==>
              Trace(ev, root, loc + ";" + x, val, path, fuel)
              == TokensTrace(ev, root, SliceTokens(PlanOf(loc, val)), x, val, path, fuel)
    ensures PlanOf(loc, val).step < 0 && PlanOf(loc, val).start < PlanOf(loc, val).end ==>
              Trace(ev, root, loc + ";" + x, val, path, fuel) == Fail(Diverges)
  {
    SliceUnfold(ev, root, loc, x, val, path, fuel);
    var p := PlanOf(loc, val);
    if p.step > 0 {
      SliceLoopFirst(ev, root, p, x, val, path, fuel);
    }
  }

  /** The slice branch of `trace`, with the plan named. */
  lemma SliceUnfold(ev: Evaluator, root: Node, loc: string, x: string, val: Node, path: string, fuel: nat)
    requires WellFormed(val) && ';' !in loc && KindOf(loc, val) == Slice
    ensures PlanOf(loc, val).step > 0 ==>
              TraceOf(ev, root, loc + ";" + x, val, path, fuel) == SliceLoop(ev, root, PlanOf(loc, val), PlanOf(loc, val).start, x, val, path, fuel)
    ensures PlanOf(loc, val).step < 0 && PlanOf(loc, val).start < PlanOf(loc, val).end ==>
              TraceOf(ev, root, loc + ";" + x, val, path, fuel) == Fail(Diverges)
  {
    LocRestCons(loc, x);
    SliceCase(ev, root, loc + ";" + x, val, path, fuel);
  }

  /** The whole loop of `slice` traces the slice tokens. */
  lemma SliceLoopFirst(ev: Evaluator, root: Node, p: SlicePlan, x: string, val: Node, path: string, fuel: nat)
    requires WellFormed(val) && p.step > 0 && p.start >= 0 && IsNumeral(p.first)
    ensures SliceLoop(ev, root, p, p.start, x, val, path, fuel)
         == TokensTrace(ev, root, SliceTokens(p), x, val, path, fuel)
  {
    if p.start < p.end {
      SliceLoopIsTokens(ev, root, p, p.start + p.step, x, val, path, fuel);
      var rest := Numerals(Indices(p.start + p.step, p.end, p.step));
      assert SliceTokens(p) == [p.first] + rest;
      assert SliceTokens(p)[1..] == rest;
    }
  }

  /**
   * The slice tokens name the slice indices, and with a positive step every
   * index lies in `[0, count)` and they ascend by the step.
   */
  lemma SliceTokenValues(p: SlicePlan, length: nat)
    requires p.step > 0 && 0 <= p.start && p.end <= length && IsNumeral(p.first) && IntCast(p.first) == p.start
    ensures |SliceTokens(p)| == |SliceIndices(p)|
    ensures forall k :: 0 <= k < |SliceTokens(p)| ==> IsNumeral(SliceTokens(p)[k]) && IntCast(SliceTokens(p)[k]) == SliceIndices(p)[k]
    ensures forall k :: 0 <= k < |SliceIndices(p)| ==> 0 <= SliceIndices(p)[k] < length
    ensures forall k :: 0 < k < |SliceIndices(p)| ==> SliceIndices(p)[k] == SliceIndices(p)[k - 1] + p.step
  {
    SliceIndicesSpan(p);
    forall k | 0 < k < |SliceIndices(p)|
      ensures SliceIndices(p)[k] == SliceIndices(p)[k - 1] + p.step
    {
      assert p.start + (k - 1) * p.step + p.step == p.start + k * p.step;
    }
    if p.start < p.end {
      var rest := Indices(p.start + p.step, p.end, p.step);
      NumeralsAt(rest);
      forall k | 0 <= k < |rest|
        ensures IsNumeral(Numerals(rest)[k]) && IntCast(Numerals(rest)[k]) == rest[k]
      {
        NatToStringValue(rest[k]);
        assert Numerals(rest)[k] == NatToString(rest[k]);
        assert NatToString(rest[k])[0] != '-';
      }
      assert SliceTokens(p) == [p.first] + Numerals(rest);
      assert SliceIndices(p) == [p.start] + rest;
    }
  }

  // ---------------------------------------------------------------------
  // Python-style slices over a five-element list
  // ---------------------------------------------------------------------

  /** `[1:4]` visits indices 1, 2 and 3. */
  lemma SliceOneToFour(loc: string, val: Node)
    requires loc == "1:4" && Count(val) == 5
    ensures SliceGroups(loc).Some?
    ensures PlanOf(loc, val).step == 1
    ensures SliceIndices(PlanOf(loc, val)) == [1, 2, 3]
    ensures SliceTokens(PlanOf(loc, val)) == ["1", "2", "3"]
  {
    assert DigitRun(loc[1..]) == "" by { assert loc[1..][0] == ':'; }
    assert DigitRun(loc) == "1";
    var rest := loc[2..];
    assert DigitRun(rest[1..]) == "";
    assert Numeral(rest) == "4";
    assert SliceTail(rest, 1) == Some(("4", ""));
    assert DigitsValue("4") == 4;
    var p := PlanOf(loc, val);
    assert p == SlicePlan(1, "1", 4, 1);
    assert Indices(4, 4, 1) == [];
    assert Indices(3, 4, 1) == [3];
    assert Indices(2, 4, 1) == [2, 3];
    assert NatToString(2) == "2" && NatToString(3) == "3";
  }

  /** `[-2:]` visits the last two indices. */
  lemma SliceLastTwo(loc: string, val: Node)
    requires loc == "-2:" && Count(val) == 5
    ensures SliceGroups(loc).Some?
    ensures PlanOf(loc, val).step == 1
    ensures SliceIndices(PlanOf(loc, val)) == [3, 4]
    ensures SliceTokens(PlanOf(loc, val)) == ["3", "4"]
  {
    assert DigitRun(loc[2..]) == "" by { assert loc[2..][0] == ':'; }
    assert DigitRun(loc[1..]) == "2";
    assert Numeral(loc) == "-2";
    var rest := loc[3..];
    assert rest == "";
    assert SliceTail(rest, 0) == Some(("", ""));
    assert DigitsValue("2") == 2;
    var p := PlanOf(loc, val);
    assert p == SlicePlan(3, "3", 5, 1);
    assert Indices(5, 5, 1) == [];
    assert Indices(4, 5, 1) == [4];
    assert NatToString(4) == "4";
  }

  /** `[::2]` visits every other index from 0. */
  lemma SliceEveryOther(loc: string, val: Node)
    requires loc == "::2" && Count(val) == 5
    ensures SliceGroups(loc).Some?
    ensures PlanOf(loc, val).step == 2
    ensures SliceIndices(PlanOf(loc, val)) == [0, 2, 4]
    ensures SliceTokens(PlanOf(loc, val)) == ["0", "2", "4"]
  {
    assert DigitRun(loc) == "";
    var rest := loc[1..];
    assert DigitRun(rest) == "";
    assert rest[1..] == "2";
    assert SliceTail(rest, 0) == Some(("", "2"));
    assert DigitsValue("2") == 2;
    var p := PlanOf(loc, val);
    assert p == SlicePlan(0, "0", 5, 2);
    assert Indices(6, 5, 2) == [];
    assert Indices(4, 5, 2) == [4];
    assert Indices(2, 5, 2) == [2, 4];
    assert NatToString(2) == "2" && NatToString(4) == "4";
  }

  // ---------------------------------------------------------------------
  // Fuel
  // ---------------------------------------------------------------------

  /** An outcome that did not stop for want of fuel. */
  predicate Enough(o: Outcome)
  {
    o.error != Some(OutOfFuel)
  }

  /** A sequence that did not run out of fuel has parts that did not either. */
  lemma ThenEnough(a: Outcome, b: Outcome)
    requires Enough(Then(a, b))
    ensures Enough(a) && (a.error.None? ==> Enough(b))
  {
  }

  /**
   * Sequencing keeps an answer found with little fuel: when the first part
   * gives the same outcome with more fuel, and the second part does too
   * whenever it runs, so does the sequence.
   */
  lemma ThenFuel(a: Outcome, b: Outcome, a': Outcome, b': Outcome)
    requires Enough(Then(a, b)) && a' == a
    requires a.error.None? ==> b' == b
    ensures Then(a', b') == Then(a, b)
  {
  }

  /**
   * More fuel changes nothing once a trace has finished without running out:
   * `fuel` only bounds the expansion of scripts, so any trace that PHP
   * completes has the same outcome for every larger bound.
   */
  lemma {:induction false} TraceFuel(ev: Evaluator, root: Node, expr: string, val: Node, path: string, lo: nat, hi: nat)
    requires WellFormed(val) && lo <= hi
    requires Enough(Trace(ev, root, expr, val, path, lo))
    ensures Trace(ev, root, expr, val, path, hi) == Trace(ev, root, expr, val, path, lo)
    decreases lo, Size(val), Steps(expr), TraceRank(expr, val), 1
  {
    if expr != "" {
      TraceStepFuel(ev, root, expr, val, path, lo, hi);
    }
  }

  lemma {:induction false} TraceStepFuel(ev: Evaluator, root: Node, expr: string, val: Node, path: string, lo: nat, hi: nat)
    requires WellFormed(val) && expr != "" && lo <= hi
    requires Enough(TraceStep(ev, root, expr, val, path, lo))
    ensures TraceStep(ev, root, expr, val, path, hi) == TraceStep(ev, root, expr, val, path, lo)
    decreases lo, Size(val), Steps(expr), TraceRank(expr, val), 0
  {
    var loc, x := Loc(expr), Rest(expr);
    match KindOf(loc, val)
    case KeyStep =>
      ChildShrinks(val, loc);
      TraceFuel(ev, root, x, Child(val, loc), path + ";" + loc, lo, hi);
    case Star =>
      WalkFuel(ev, root, Asterisk, loc, x, val, path, lo, hi, 0);
    case Descent =>
      DescentFuel(ev, root, expr, val, path, lo, hi);
    case Script =>
      ScriptFuel(ev, root, loc, x, val, path, lo, hi);
    case Filter =>
      WalkFuel(ev, root, QuestionMarkPrefix, loc, x, val, path, lo, hi, 0);
    case Slice =>
      SliceOutcomeFuel(ev, root, loc, x, val, path, lo, hi);
    case Union =>
      TraceEachFuel(ev, root, Pieces(loc), 0, x, val, path, lo, hi);
    case NoMatch =>
  }

  lemma {:induction false} DescentFuel(ev: Evaluator, root: Node, expr: string, val: Node, path: string, lo: nat, hi: nat)
    requires WellFormed(val) && expr != "" && lo <= hi && KindOf(Loc(expr), val) == Descent
    requires Enough(TraceStep(ev, root, expr, val, path, lo))
    ensures TraceStep(ev, root, expr, val, path, hi) == TraceStep(ev, root, expr, val, path, lo)
    decreases lo, Size(val), Steps(expr), TraceRank(expr, val), 0, 0
  {
    var loc, x := Loc(expr), Rest(expr);
    var a, b := Trace(ev, root, x, val, path, lo), Walk(ev, root, DoubleDot, loc, x, val, path, lo, 0);
    assert TraceStep(ev, root, expr, val, path, lo) == Then(a, b);
    TraceFuel(ev, root, x, val, path, lo, hi);
    if a.error.None? {
      WalkFuel(ev, root, DoubleDot, loc, x, val, path, lo, hi, 0);
    }
    ThenFuel(a, b, Trace(ev, root, x, val, path, hi), Walk(ev, root, DoubleDot, loc, x, val, path, hi, 0));
  }

  lemma {:induction false} ScriptFuel(ev: Evaluator, root: Node, loc: string, x: string, val: Node, path: string, lo: nat, hi: nat)
    requires WellFormed(val) && lo <= hi
    requires Enough(ScriptOutcome(ev, root, loc, x, val, path, lo))
    ensures ScriptOutcome(ev, root, loc, x, val, path, hi) == ScriptOutcome(ev, root, loc, x, val, path, lo)
    decreases lo, Size(val), Steps(x), 1
  {
    match ev.key(loc, val, root)
    case None =>
    case Some(k) =>
      if lo == 0 {
        assert false;
      } else {
        ExpandedFuel(ev, root, loc, x, val, path, lo, hi, k);
      }
  }

  lemma {:induction false} ExpandedFuel(ev: Evaluator, root: Node, loc: string, x: string, val: Node, path: string,
                                        lo: nat, hi: nat, k: string)
    requires WellFormed(val) && 0 < lo <= hi && ev.key(loc, val, root) == Some(k)
    requires Enough(ScriptOutcome(ev, root, loc, x, val, path, lo))
    ensures ScriptOutcome(ev, root, loc, x, val, path, hi) == ScriptOutcome(ev, root, loc, x, val, path, lo)
    decreases lo, Size(val), Steps(x), 0
  {
    ScriptExpands(ev, root, loc, x, val, path, lo, k);
    ScriptExpands(ev, root, loc, x, val, path, hi, k);
    TraceOfFuel(ev, root, k + ";" + x, val, path, lo - 1, hi - 1);
  }

  /** `TraceFuel` over `TraceOf`, for callers that should not unfold `Trace`. */
  lemma TraceOfFuel(ev: Evaluator, root: Node, expr: string, val: Node, path: string, lo: nat, hi: nat)
    requires WellFormed(val) && lo <= hi
    requires Enough(TraceOf(ev, root, expr, val, path, lo))
    ensures TraceOf(ev, root, expr, val, path, hi) == TraceOf(ev, root, expr, val, path, lo)
    decreases lo, Size(val), Steps(expr), TraceRank(expr, val), 2
  {
    TraceFuel(ev, root, expr, val, path, lo, hi);
  }

  /** A script with fuel left traces the key `evalx` gave in the token's place. */
  lemma ScriptExpands(ev: Evaluator, root: Node, loc: string, x: string, val: Node, path: string, fuel: nat, k: string)
    requires WellFormed(val) && fuel > 0 && ev.key(loc, val, root) == Some(k)
    ensures ScriptOutcome(ev, root, loc, x, val, path, fuel) == TraceOf(ev, root, k + ";" + x, val, path, fuel - 1)
  {
  }

  lemma {:induction false} SliceOutcomeFuel(ev: Evaluator, root: Node, loc: string, x: string, val: Node, path: string, lo: nat, hi: nat)
    requires WellFormed(val) && SliceGroups(loc).Some? && lo <= hi
    requires Enough(SliceOutcome(ev, root, loc, x, val, path, lo))
    ensures SliceOutcome(ev, root, loc, x, val, path, hi) == SliceOutcome(ev, root, loc, x, val, path, lo)
    decreases lo, Size(val), 1 + Steps(x), 2
  {
    var (g1, g2, g3) := SliceGroups(loc).value;
    var p := Plan(g1, g2, g3, Count(val));
    if p.step >= 0 {
      SliceLoopFuel(ev, root, p, p.start, x, val, path, lo, hi);
    }
  }

  lemma {:induction false} WalkFuel(ev: Evaluator, root: Node, f: Callback, loc: string, x: string, val: Node,
                                    path: string, lo: nat, hi: nat, i: nat)
    requires WellFormed(val) && lo <= hi
    requires f.QuestionMarkPrefix? ==> IsFilter(loc)
    requires Enough(Walk(ev, root, f, loc, x, val, path, lo, i))
    ensures Walk(ev, root, f, loc, x, val, path, hi, i) == Walk(ev, root, f, loc, x, val, path, lo, i)
    decreases lo, Size(val), 1 + Steps(x), 2, if val.Arr? then |val.members| - i else 0
  {
    if val.Arr? && i < |val.members| {
      WalkCons(ev, root, f, loc, x, val, path, lo, i);
      WalkCons(ev, root, f, loc, x, val, path, hi, i);
      var a, b := Call(ev, root, f, i, loc, x, val, path, lo), Walk(ev, root, f, loc, x, val, path, lo, i + 1);
      CallFuel(ev, root, f, i, loc, x, val, path, lo, hi);
      if a.error.None? {
        WalkFuel(ev, root, f, loc, x, val, path, lo, hi, i + 1);
      }
      ThenFuel(a, b, Call(ev, root, f, i, loc, x, val, path, hi), Walk(ev, root, f, loc, x, val, path, hi, i + 1));
    }
  }

  /** One pass of `walk`'s loop. */
  lemma WalkCons(ev: Evaluator, root: Node, f: Callback, loc: string, x: string, val: Node, path: string, fuel: nat, i: nat)
    requires WellFormed(val) && val.Arr? && i < |val.members|
    requires f.QuestionMarkPrefix? ==> IsFilter(loc)
    ensures Walk(ev, root, f, loc, x, val, path, fuel, i)
         == Then(Call(ev, root, f, i, loc, x, val, path, fuel), Walk(ev, root, f, loc, x, val, path, fuel, i + 1))
  {
  }

  lemma {:induction false} CallFuel(ev: Evaluator, root: Node, f: Callback, i: nat, loc: string, x: string, val: Node,
                                    path: string, lo: nat, hi: nat)
    requires WellFormed(val) && val.Arr? && i < |val.members| && lo <= hi
    requires f.QuestionMarkPrefix? ==> IsFilter(loc)
    requires Enough(Call(ev, root, f, i, loc, x, val, path, lo))
    ensures Call(ev, root, f, i, loc, x, val, path, hi) == Call(ev, root, f, i, loc, x, val, path, lo)
    decreases lo, Size(val), 1 + Steps(x), 1, 0
  {
    var m := val.members[i].key;
    ChildAt(val, i);
    StepsCons(m, x);
    LocRestCons(m, x);
    match f
    case Asterisk =>
      TraceFuel(ev, root, m + ";" + x, val, path, lo, hi);
    case DoubleDot =>
      var v := Child(val, m);
      ChildShrinks(val, m);
      if v.Arr? {
        TraceFuel(ev, root, "..;" + x, v, path + ";" + m, lo, hi);
      }
    case QuestionMarkPrefix =>
      if ev.test(FilterBody(loc), Child(val, m), root) == Some(true) {
        TraceFuel(ev, root, m + ";" + x, val, path, lo, hi);
      }
  }

  lemma {:induction false} TraceEachFuel(ev: Evaluator, root: Node, tokens: seq<string>, i: nat, x: string, val: Node,
                                         path: string, lo: nat, hi: nat)
    requires WellFormed(val) && lo <= hi
    requires forall k :: 0 <= k < |tokens| ==> ';' !in tokens[k] && ',' !in tokens[k]
    requires Enough(TraceEach(ev, root, tokens, i, x, val, path, lo))
    ensures TraceEach(ev, root, tokens, i, x, val, path, hi) == TraceEach(ev, root, tokens, i, x, val, path, lo)
    decreases lo, Size(val), 1 + Steps(x), 4, |tokens| - i
  {
    if i < |tokens| {
      var t := tokens[i];
      PieceRank(t, x, val);
      TraceEachCons(ev, root, tokens, i, x, val, path, lo);
      TraceEachCons(ev, root, tokens, i, x, val, path, hi);
      var a, b := TraceOf(ev, root, t + ";" + x, val, path, lo), TraceEach(ev, root, tokens, i + 1, x, val, path, lo);
      TraceOfFuel(ev, root, t + ";" + x, val, path, lo, hi);
      if a.error.None? {
        TraceEachFuel(ev, root, tokens, i + 1, x, val, path, lo, hi);
      }
      ThenFuel(a, b, TraceOf(ev, root, t + ";" + x, val, path, hi), TraceEach(ev, root, tokens, i + 1, x, val, path, hi));
    }
  }

  /** A union piece in front of the tail is one step, and never again a union. */
  lemma PieceRank(t: string, x: string, val: Node)
    requires ';' !in t && ',' !in t
    ensures Steps(t + ";" + x) == 1 + Steps(x) && TraceRank(t + ";" + x, val) < 4
  {
    StepsCons(t, x);
    LocRestCons(t, x);
  }

  /** A slice index in front of the tail is one step that expands no further. */
  lemma NumeralStep(t: string, x: string, val: Node)
    requires IsNumeral(t)
    ensures Steps(t + ";" + x) == 1 + Steps(x) && TraceRank(t + ";" + x, val) == 0
  {
    NumeralRank(t, val);
    StepsCons(t, x);
    LocRestCons(t, x);
  }

  /** One pass of the loop of `TraceEach`. */
  lemma TraceEachCons(ev: Evaluator, root: Node, tokens: seq<string>, i: nat, x: string, val: Node, path: string, fuel: nat)
    requires WellFormed(val) && i < |tokens|
    requires forall k :: 0 <= k < |tokens| ==> ';' !in tokens[k] && ',' !in tokens[k]
    ensures TraceEach(ev, root, tokens, i, x, val, path, fuel)
         == Then(TraceOf(ev, root, tokens[i] + ";" + x, val, path, fuel), TraceEach(ev, root, tokens, i + 1, x, val, path, fuel))
  {
  }

  lemma {:induction false} SliceLoopFuel(ev: Evaluator, root: Node, p: SlicePlan, i: int, x: string, val: Node,
                                         path: string, lo: nat, hi: nat)
    requires WellFormed(val) && lo <= hi
    requires p.step > 0 && p.start >= 0 && i >= p.start && IsNumeral(p.first)
    requires Enough(SliceLoop(ev, root, p, i, x, val, path, lo))
    ensures SliceLoop(ev, root, p, i, x, val, path, hi) == SliceLoop(ev, root, p, i, x, val, path, lo)
    decreases lo, Size(val), 1 + Steps(x), 2, if i < p.end then p.end - i else 0
  {
    if i < p.end {
      var t := SliceToken(p, i);
      NumeralStep(t, x, val);
      SliceLoopEnough(ev, root, p, i, t, x, val, path, lo);
      TraceOfFuel(ev, root, t + ";" + x, val, path, lo, hi);
      if TraceOf(ev, root, t + ";" + x, val, path, lo).error.None? {
        SliceLoopFuel(ev, root, p, i + p.step, x, val, path, lo, hi);
      }
      SliceLoopJoin(ev, root, p, i, t, x, val, path, lo, hi);
    }
  }

  /** A pass of `slice`'s loop that did not run out of fuel has a token and a rest that did not either. */
  lemma SliceLoopEnough(ev: Evaluator, root: Node, p: SlicePlan, i: int, t: string, x: string, val: Node,
                        path: string, fuel: nat)
    requires WellFormed(val) && p.step > 0 && p.start >= 0 && i >= p.start && IsNumeral(p.first) && i < p.end
    requires t == SliceToken(p, i)
    requires Enough(SliceLoop(ev, root, p, i, x, val, path, fuel))
    ensures Enough(TraceOf(ev, root, t + ";" + x, val, path, fuel))
    ensures TraceOf(ev, root, t + ";" + x, val, path, fuel).error.None? ==>
      Enough(SliceLoop(ev, root, p, i + p.step, x, val, path, fuel))
  {
    SliceLoopUnfold(ev, root, p, i, t, x, val, path, fuel);
    ThenEnough(TraceOf(ev, root, t + ";" + x, val, path, fuel), SliceLoop(ev, root, p, i + p.step, x, val, path, fuel));
  }

  /** One pass of `slice`'s loop keeps its outcome when its token and the rest of the loop do. */
  lemma SliceLoopJoin(ev: Evaluator, root: Node, p: SlicePlan, i: int, t: string, x: string, val: Node,
                      path: string, lo: nat, hi: nat)
    requires WellFormed(val) && p.step > 0 && p.start >= 0 && i >= p.start && IsNumeral(p.first) && i < p.end
    requires t == SliceToken(p, i)
    requires Enough(SliceLoop(ev, root, p, i, x, val, path, lo))
    requires var a := TraceOf(ev, root, t + ";" + x, val, path, lo);
      Enough(a) ==> TraceOf(ev, root, t + ";" + x, val, path, hi) == a
    requires var a, b := TraceOf(ev, root, t + ";" + x, val, path, lo), SliceLoop(ev, root, p, i + p.step, x, val, path, lo);
      a.error.None? && Enough(b) ==> SliceLoop(ev, root, p, i + p.step, x, val, path, hi) == b
    ensures SliceLoop(ev, root, p, i, x, val, path, hi) == SliceLoop(ev, root, p, i, x, val, path, lo)
  {
    SliceLoopUnfold(ev, root, p, i, t, x, val, path, lo);
    SliceLoopUnfold(ev, root, p, i, t, x, val, path, hi);
    var a, b := TraceOf(ev, root, t + ";" + x, val, path, lo), SliceLoop(ev, root, p, i + p.step, x, val, path, lo);
    ThenEnough(a, b);
    ThenFuel(a, b, TraceOf(ev, root, t + ";" + x, val, path, hi), SliceLoop(ev, root, p, i + p.step, x, val, path, hi));
  }
}

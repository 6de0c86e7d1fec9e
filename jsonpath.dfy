/**
 * The `JsonPath` class: its fields `obj`, `resultType` and `result`, and the
 * methods that update them step by step. `result` is both the accumulator of
 * a query and, while a path is being normalized, the buffer of parked
 * filters. Every method is proved against the specification functions of
 * `Normalizer` and `Matcher`.
 */
module Engine {
  import opened Prelude
  import opened Document
  import opened Normalizer
  import opened Matcher

  /** The needles `strPosArray` is given: `$this->keywords`. */
  const Keywords: seq<char> := ['=', ')', '!', '<', '>']

  /** The earliest needle below `Closer`, as `strPosArray` promises it. */
  predicate Earliest(h: string, needles: seq<char>, r: Option<nat>)
  {
    (r.Some? ==> r.value < Closer && r.value < |h| && h[r.value] in needles
                 && forall j :: 0 <= j < r.value ==> h[j] !in needles)
    && (r.None? ==> forall j :: 0 <= j < |h| && j < Closer ==> h[j] !in needles)
  }

  /** With the keywords as needles, that is `KeywordPosition`. */
  lemma EarliestKeyword(h: string, r: Option<nat>)
    requires Earliest(h, Keywords, r)
    ensures r == KeywordPosition(h)
  {
    assert forall c :: c in Keywords <==> IsKeyword(c);
    match FirstKeyword(h)
    case None =>
    case Some(p) =>
      if r.Some? {
        assert !(r.value < p) && !(p < r.value);
      }
  }

  /** One iteration of the inner loop of `tempFilters` appends `BracketPart(part)`. */
  lemma BracketPieceStep(before: string, part: string, pos: Option<nat>, sub: string, end: Option<string>, str: string)
    requires pos == KeywordPosition(part)
    requires pos.Some? ==> pos.value <= |part| && sub == part[..pos.value] && end == Some(part[pos.value..])
    requires pos.None? ==> sub == part && end == None
    requires str == (if end.Some? then before + "[" + sub + "]" + end.value else before + "[" + sub + "]")
    ensures str == before + BracketPart(part)
  {
  }

  lemma {:induction false} BracketPartsSnoc(parts: seq<string>, part: string)
    ensures BracketParts(parts + [part]) == BracketParts(parts) + BracketPart(part)
    decreases |parts|
  {
    if |parts| > 0 {
      assert (parts + [part])[1..] == parts[1..] + [part];
      BracketPartsSnoc(parts[1..], part);
    }
  }

  /** The parts bracketed so far grow by one part per iteration. */
  lemma BracketPartsStep(e: seq<string>, k: nat)
    requires 1 <= k < |e|
    ensures BracketParts(e[1..k + 1]) == BracketParts(e[1..k]) + BracketPart(e[k])
  {
    assert e[1..k + 1] == e[1..k] + [e[k]];
    BracketPartsSnoc(e[1..k], e[k]);
  }

  /** Storing two runs of matches is storing their concatenation. */
  lemma {:induction false} StoredAllAppend(resultType: string, a: seq<Match>, b: seq<Match>)
    ensures StoredAll(resultType, a + b) == StoredAll(resultType, a) + StoredAll(resultType, b)
    decreases |a|
  {
    if |a| > 0 {
      assert (a + b)[1..] == a[1..] + b;
      StoredAllAppend(resultType, a[1..], b);
    } else {
      assert a + b == b;
    }
  }

  /**
   * A loop that has stored `acc` and still has `Then(a, b)` to go: after `a`
   * it has stored `acc + a.matches`, and it stops with `a`'s error or goes on
   * with `b`.
   */
  lemma ThenStep(resultType: string, base: seq<Entry>, acc: seq<Match>, a: Outcome, b: Outcome)
    ensures base + StoredAll(resultType, acc) + StoredAll(resultType, a.matches)
         == base + StoredAll(resultType, acc + a.matches)
    ensures a.error.Some? ==> Then(Outcome(acc, None), Then(a, b)) == Outcome(acc + a.matches, a.error)
    ensures a.error.None? ==> Then(Outcome(acc, None), Then(a, b)) == Then(Outcome(acc + a.matches, None), b)
  {
    StoredAllAppend(resultType, acc, a.matches);
    Concat3(base, StoredAll(resultType, acc), StoredAll(resultType, a.matches));
    if a.error.None? {
      Concat3(acc, a.matches, b.matches);
    }
  }

  /** A loop that has run out of work has stored what it will return. */
  lemma ThenDone(acc: seq<Match>)
    ensures Then(Outcome(acc, None), Nothing) == Outcome(acc, None)
  {
    assert acc + [] == acc;
  }

  // ---------------------------------------------------------------------
  // One step of each specification function, for the methods that follow it
  // ---------------------------------------------------------------------

  /** `trace` on a non-empty expression, branch by branch. */
  lemma TraceCases(ev: Evaluator, root: Node, expr: string, val: Node, path: string, fuel: nat)
    requires WellFormed(val) && expr != ""
    ensures var loc, x, o := Loc(expr), Rest(expr), Matcher.Trace(ev, root, expr, val, path, fuel);
      && (KindOf(loc, val) == KeyStep ==>
            Size(Child(val, loc)) < Size(val) && o == Matcher.Trace(ev, root, x, Child(val, loc), path + ";" + loc, fuel))
      && (KindOf(loc, val) == Star ==> o == Matcher.Walk(ev, root, Asterisk, loc, x, val, path, fuel, 0))
      && (KindOf(loc, val) == Descent ==>
            o == Then(Matcher.Trace(ev, root, x, val, path, fuel), Matcher.Walk(ev, root, DoubleDot, loc, x, val, path, fuel, 0)))
      && (KindOf(loc, val) == Script && ev.key(loc, val, root).None? ==> o == Fail(EvalError(loc)))
      && (KindOf(loc, val) == Script && ev.key(loc, val, root).Some? && fuel == 0 ==> o == Fail(OutOfFuel))
      && (KindOf(loc, val) == Script && ev.key(loc, val, root).Some? && fuel > 0 ==>
            o == Matcher.Trace(ev, root, ev.key(loc, val, root).value + ";" + x, val, path, fuel - 1))
      && (KindOf(loc, val) == Filter ==> o == Matcher.Walk(ev, root, QuestionMarkPrefix, loc, x, val, path, fuel, 0))
      && (KindOf(loc, val) == Slice ==> o == SliceOutcome(ev, root, loc, x, val, path, fuel))
      && (KindOf(loc, val) == Union ==> o == TraceEach(ev, root, Pieces(loc), 0, x, val, path, fuel))
      && (KindOf(loc, val) == NoMatch ==> o == Nothing)
  {
    var k := KindOf(Loc(expr), val);
    if k == KeyStep {
      ChildShrinks(val, Loc(expr));
    } else if k == Script {
      ScriptCase(ev, root, expr, val, path, fuel);
    } else if k == Slice {
      SliceCase(ev, root, expr, val, path, fuel);
    }
  }

  lemma TraceEachCons(ev: Evaluator, root: Node, tokens: seq<string>, i: nat, x: string, val: Node, path: string, fuel: nat)
    requires WellFormed(val) && i < |tokens|
    requires forall k :: 0 <= k < |tokens| ==> ';' !in tokens[k] && ',' !in tokens[k]
    ensures TraceEach(ev, root, tokens, i, x, val, path, fuel)
         == Then(Matcher.Trace(ev, root, tokens[i] + ";" + x, val, path, fuel), TraceEach(ev, root, tokens, i + 1, x, val, path, fuel))
  {
  }

  lemma WalkCons(ev: Evaluator, root: Node, f: Callback, loc: string, x: string, val: Node, path: string, fuel: nat, i: nat)
    requires WellFormed(val) && val.Arr? && i < |val.members|
    requires f.QuestionMarkPrefix? ==> IsFilter(loc)
    ensures Matcher.Walk(ev, root, f, loc, x, val, path, fuel, i)
         == Then(Call(ev, root, f, i, loc, x, val, path, fuel), Matcher.Walk(ev, root, f, loc, x, val, path, fuel, i + 1))
  {
  }

  /** One callback, by kind: the tail after member key `m`, guarded as `walk`'s callbacks guard it. */
  lemma CallCases(ev: Evaluator, root: Node, f: Callback, i: nat, loc: string, x: string, val: Node, path: string, fuel: nat)
    requires WellFormed(val) && val.Arr? && i < |val.members|
    requires f.QuestionMarkPrefix? ==> IsFilter(loc)
    ensures var m, o := val.members[i].key, Call(ev, root, f, i, loc, x, val, path, fuel);
      && KeyExists(val, m) && Child(val, m) == val.members[i].value && Size(Child(val, m)) < Size(val)
      && (f == Asterisk ==> o == Matcher.Trace(ev, root, m + ";" + x, val, path, fuel))
      && (f == DoubleDot && Child(val, m).Arr? ==> o == Matcher.Trace(ev, root, "..;" + x, Child(val, m), path + ";" + m, fuel))
      && (f == DoubleDot && !Child(val, m).Arr? ==> o == Nothing)
      && (f == QuestionMarkPrefix && ev.test(FilterBody(loc), Child(val, m), root).None? ==> o == Fail(EvalError(FilterBody(loc))))
      && (f == QuestionMarkPrefix && ev.test(FilterBody(loc), Child(val, m), root) == Some(true) ==>
            o == Matcher.Trace(ev, root, m + ";" + x, val, path, fuel))
      && (f == QuestionMarkPrefix && ev.test(FilterBody(loc), Child(val, m), root) == Some(false) ==> o == Nothing)
  {
    ChildAt(val, i);
    ChildShrinks(val, val.members[i].key);
  }

  /** What `jsonPath` returns: `false`, the accumulator, or a thrown exception. */
  datatype Answer = NoResult | Results(entries: seq<Entry>) | Raised(error: Error)

  /** `$args['resultType']` when the key is given, else `VALUE`. */
  function ResultTypeOf(args: Option<string>): string
  {
    if args.Some? then args.value else ValueType
  }

  /** The guard of `jsonPath`: a non-empty path, a non-empty array, a known result type. */
  predicate Runs(data: Node, jsonPath: string, resultType: string)
  {
    !EmptyString(jsonPath) && data.Arr? && |data.members| > 0 && IsValidResultType(resultType)
  }

  /** The expression `jsonPath` hands to `trace`, or None for the TypeError out of `normalize`. */
  function Prepared(jsonPath: string, buf: seq<Entry>): Option<string>
  {
    match NormalizeAsWritten(jsonPath, buf)
    case None => None
    case Some(n) => Some(StripRoot(n))
  }

  /**
   * `jsonPath($array, $jsonPath, $args)` on a result buffer `buf`: the answer
   * and the buffer afterwards. When the guard fails nothing is touched. When
   * `normalize` raises its TypeError the buffer is left as it was;
   * otherwise it is emptied by `normalize` and holds what `trace` stored,
   * also when an exception escapes.
   */
  function Answered(ev: Evaluator, fuel: nat, data: Node, jsonPath: string, resultType: string, buf: seq<Entry>)
    : (Answer, seq<Entry>)
    requires WellFormed(data)
  {
    if !Runs(data, jsonPath, resultType) then (NoResult, buf)
    else match Prepared(jsonPath, buf)
      case None => (Raised(TypeError), buf)
      case Some(expr) =>
        var o := Matcher.Trace(ev, data, expr, data, "$", fuel);
        var entries := StoredAll(resultType, o.matches);
        if o.error.Some? then (Raised(o.error.value), entries)
        else if |entries| > 0 then (Results(entries), entries)
        else (NoResult, entries)
  }

  /** What the scan of `ParkMatches` still has to produce from position `k` on. */
  ghost function ParkFrom(p: ParkPattern, s: string, k: nat, buf: seq<Entry>): (string, seq<Entry>)
    requires k <= |s|
  {
    ParkAll(p, s[k..], buf)
  }

  /** One step of `ParkAll` where the pattern matches at position `k`. */
  lemma ParkFromMatch(p: ParkPattern, s: string, k: nat, buf: seq<Entry>, c: Capture)
    requires k < |s| && MatchPark(p, s[k..]) == Some(c)
    ensures k + c.end <= |s|
    ensures ParkFrom(p, s, k, buf) ==
      (Placeholder(|buf|) + ParkFrom(p, s, k + c.end, buf + [Text(DotHack(c.group))]).0,
       ParkFrom(p, s, k + c.end, buf + [Text(DotHack(c.group))]).1)
  {
    var t := s[k..];
    assert t[c.end..] == s[k + c.end..];
    assert ParkFrom(p, s, k, buf) == ParkNext(p, t, buf);
  }

  /** One step of `ParkAll` where it does not match at position `k`. */
  lemma ParkFromSkip(p: ParkPattern, s: string, k: nat, buf: seq<Entry>)
    requires k < |s| && MatchPark(p, s[k..]).None?
    ensures ParkFrom(p, s, k, buf) == ([s[k]] + ParkFrom(p, s, k + 1, buf).0, ParkFrom(p, s, k + 1, buf).1)
  {
    var t := s[k..];
    assert t[1..] == s[k + 1..];
    assert ParkFrom(p, s, k, buf) == ParkNext(p, t, buf);
  }

  /**
   * The scan of `ParkMatches` past a match at `k`: the placeholder moves
   * from what is left to produce to what has been produced.
   */
  lemma ParkMatched(p: ParkPattern, s: string, k: nat, buf: seq<Entry>, c: Capture, out: string, whole: (string, seq<Entry>))
    requires k < |s| && MatchPark(p, s[k..]) == Some(c)
    requires whole == (out + ParkFrom(p, s, k, buf).0, ParkFrom(p, s, k, buf).1)
    ensures k + c.end <= |s|
    ensures whole == ((out + Placeholder(|buf|)) + ParkFrom(p, s, k + c.end, buf + [Text(DotHack(c.group))]).0,
                      ParkFrom(p, s, k + c.end, buf + [Text(DotHack(c.group))]).1)
  {
    ParkFromMatch(p, s, k, buf, c);
    Concat3(out, Placeholder(|buf|), ParkFrom(p, s, k + c.end, buf + [Text(DotHack(c.group))]).0);
  }

  /** The scan of `ParkMatches` past a character at `k` that starts no match. */
  lemma ParkSkipped(p: ParkPattern, s: string, k: nat, buf: seq<Entry>, out: string, whole: (string, seq<Entry>))
    requires k < |s| && MatchPark(p, s[k..]).None?
    requires whole == (out + ParkFrom(p, s, k, buf).0, ParkFrom(p, s, k, buf).1)
    ensures whole == ((out + [s[k]]) + ParkFrom(p, s, k + 1, buf).0, ParkFrom(p, s, k + 1, buf).1)
  {
    ParkFromSkip(p, s, k, buf);
    Concat3(out, [s[k]], ParkFrom(p, s, k + 1, buf).0);
  }

  class JsonPath {
    var obj: Node
    var resultType: string
    var result: seq<Entry>
    /** The script evaluator `evalx` stands for. */
    const ev: Evaluator
    /** How many scripts `(expr)` a query may expand. */
    const fuel: nat

    constructor(ev: Evaluator, fuel: nat)
      ensures obj == Arr([]) && resultType == ValueType && result == []
      ensures this.ev == ev && this.fuel == fuel
    {
      this.ev := ev;
      this.fuel := fuel;
      obj := Arr([]);
      resultType := ValueType;
      result := [];
    }

    /** `strPosArray`: the least `strpos` of any needle, if it is below 10000. */
    method StrPosArray(haystack: string, needles: seq<char>) returns (r: Option<nat>)
      ensures Earliest(haystack, needles, r)
    {
      var closer: nat := Closer;
      var k := 0;
      while k < |needles|
        invariant 0 <= k <= |needles| && closer <= Closer
        invariant closer < Closer ==> closer < |haystack| && haystack[closer] in needles
        invariant forall q :: 0 <= q < k && IndexOf(haystack, needles[q]).Some? ==>
                    closer <= IndexOf(haystack, needles[q]).value
      {
        var pos := IndexOf(haystack, needles[k]);
        if pos.Some? && pos.value < closer {
          closer := pos.value;
        }
        k := k + 1;
      }
      r := if closer == Closer then None else Some(closer);
    }

    /**
     * `tempFilters` as its authors meant it, the callback that parks a
     * filter: the dot hack applied to the captured group, pushed onto
     * `result`, and its placeholder `[#k]`.
     */
    method TempFilters(filter: string) returns (placeholder: string)
      modifies this`result
      ensures result == old(result) + [Text(DotHack(filter))]
      ensures placeholder == Placeholder(|old(result)|)
    {
      var elements := RewriteElements(Split(filter, '\''));
      var added := |result|;
      result := result + [Text(Join(elements, "'"))];
      placeholder := "[#" + NatToString(added) + "]";
    }

    /** The outer `foreach` of `tempFilters`: every even element not after a backslash, rewritten. */
    method RewriteElements(original: seq<string>) returns (elements: seq<string>)
      ensures elements == RewriteAll(original)
    {
      elements := original;
      var i := 0;
      while i < |elements|
        invariant 0 <= i <= |elements| && |elements| == |original|
        invariant forall j :: 0 <= j < i ==> elements[j] == RewriteElement(original, j)
        invariant forall j :: i <= j < |elements| ==> elements[j] == original[j]
      {
        if i % 2 != 0 {
          assert !Rewritten(original, i);
          i := i + 1;
          continue;
        }
        if i > 0 {
          assert !Rewritten(original, i - 1);
          assert elements[i - 1] == original[i - 1];
        }
        if i > 0 && StartsWith(elements[i - 1], "\\") {
          assert !Rewritten(original, i);
          i := i + 1;
          continue;
        }
        assert Rewritten(original, i);
        var str := RewriteSpanLoop(elements[i]);
        elements := elements[i := str];
        i := i + 1;
      }
    }

    /**
     * The inner `foreach` of `tempFilters` on one span: the text before its
     * first `.`, then every later part as `[part]` with its keyword tail
     * outside the bracket.
     */
    method RewriteSpanLoop(span: string) returns (str: string)
      ensures str == RewriteSpan(span)
    {
      var e := Split(span, '.');
      str := "";
      var first := true;
      var k := 0;
      while k < |e|
        invariant 0 <= k <= |e|
        invariant first <==> k == 0
        invariant k > 0 ==> str == e[0] + BracketParts(e[1..k])
      {
        var subString := e[k];
        if first {
          str := subString;
          first := false;
          assert e[1..1] == [];
        } else {
          ghost var before := str;
          var end: Option<string> := None;
          var pos := StrPosArray(subString, Keywords);
          EarliestKeyword(subString, pos);
          if pos.Some? {
            end := Some(subString[pos.value..]);
            subString := subString[..pos.value];
          }
          str := str + "[" + subString + "]";
          if end.Some? {
            str := str + end.value;
          }
          BracketPieceStep(before, e[k], pos, subString, end, str);
          BracketPartsStep(e, k);
          Concat3(e[0], BracketParts(e[1..k]), BracketPart(e[k]));
        }
        k := k + 1;
      }
      assert e[1..] == e[1..|e|];
    }

    /** A match `c` at position `k`: park its filter, emit its placeholder and move past it. */
    method ParkOne(p: ParkPattern, s: string, k: nat, c: Capture, out: string, ghost whole: (string, seq<Entry>))
      returns (out': string)
      requires k < |s| && MatchPark(p, s[k..]) == Some(c)
      requires whole == (out + ParkFrom(p, s, k, result).0, ParkFrom(p, s, k, result).1)
      modifies this`result
      ensures k < k + c.end <= |s|
      ensures whole == (out' + ParkFrom(p, s, k + c.end, result).0, ParkFrom(p, s, k + c.end, result).1)
    {
      ParkMatched(p, s, k, result, c, out, whole);
      var placeholder := TempFilters(c.group);
      out' := out + placeholder;
    }

    /** One pass of the scan of `ParkMatches`, at position `k`: park a match or copy a character. */
    method ParkStep(p: ParkPattern, s: string, k: nat, out: string, ghost whole: (string, seq<Entry>))
      returns (out': string, k': nat)
      requires k < |s| && whole == (out + ParkFrom(p, s, k, result).0, ParkFrom(p, s, k, result).1)
      modifies this`result
      ensures k < k' <= |s| && whole == (out' + ParkFrom(p, s, k', result).0, ParkFrom(p, s, k', result).1)
    {
      match MatchPark(p, s[k..])
      case Some(c) =>
        out' := ParkOne(p, s, k, c, out, whole);
        k' := k + c.end;
      case None =>
        ParkSkipped(p, s, k, result, out, whole);
        out' := out + [s[k]];
        k' := k + 1;
    }

    /**
     * `preg_replace_callback` of one parking pattern with `tempFilters` as
     * intended: the pattern is tried at each position from the left, a match
     * is replaced by its placeholder and the scan resumes after it.
     */
    method ParkMatches(p: ParkPattern, s: string) returns (out: string)
      modifies this`result
      ensures (out, result) == ParkAll(p, s, old(result))
    {
      out := "";
      var k := 0;
      assert s[0..] == s;
      ghost var whole := ParkFrom(p, s, 0, result);
      assert out + whole.0 == whole.0;
      while k < |s|
        invariant 0 <= k <= |s|
        invariant whole == (out + ParkFrom(p, s, k, result).0, ParkFrom(p, s, k, result).1)
        decreases |s| - k
      {
        out, k := ParkStep(p, s, k, out, whole);
      }
      assert s[k..] == [];
      assert out + "" == out;
    }

    /**
     * `preg_replace_callback` of one parking pattern with `tempFilters` as
     * written: the pattern is tried at each position from the left, and the
     * first match hands `tempFilters` the array of matches, which its
     * `string` parameter refuses with a TypeError (None).
     */
    method ScanMatches(p: ParkPattern, s: string) returns (out: Option<string>)
      ensures out == ParkScan(p, s)
    {
      var k := 0;
      while k < |s|
        invariant 0 <= k <= |s|
        invariant ParkScan(p, s) == if ParkScan(p, s[k..]).None? then None else Some(s)
        decreases |s| - k
      {
        if MatchPark(p, s[k..]).Some? {
          return None;
        }
        assert s[k..][1..] == s[k + 1..];
        k := k + 1;
      }
      out := Some(s);
    }

    /**
     * `normalize` as written: either parking pass raises the TypeError at
     * its first match, leaving `result` as it was; otherwise cut into
     * ';'-separated tokens, restore `#k` from the stale buffer, and clear it.
     */
    method Normalize(expression: string) returns (r: Option<string>)
      modifies this`result
      ensures r == NormalizeAsWritten(expression, old(result))
      ensures r.None? ==> result == old(result)
      ensures r.Some? ==> result == []
    {
      var s1 := ScanMatches(FilterPattern, expression);
      if s1.None? {
        return None;
      }
      var s2 := ScanMatches(QuotedKeyPattern, s1.value);
      if s2.None? {
        return None;
      }
      r := Some(RestoreAll(Segment(s2.value), result));
      result := [];
    }

    /**
     * `normalize` as intended: park filters and quoted keys, cut into
     * ';'-separated tokens, put the parked text back, and clear the buffer.
     */
    method NormalizeIntended(expression: string) returns (r: string)
      modifies this`result
      ensures r == Normalizer.Normalize(expression, old(result))
      ensures result == []
    {
      var s1 := ParkMatches(FilterPattern, expression);
      var s2 := ParkMatches(QuotedKeyPattern, s1);
      var s3 := Segment(s2);
      r := RestoreAll(s3, result);
      result := [];
    }

    /** `store`: push the path (PATH mode) or the value; nothing for an empty path. */
    method Store(p: string, v: Node) returns (stored: bool)
      modifies this`result
      ensures result == old(result) + Stored(resultType, Match(p, v))
      ensures stored == !EmptyString(p)
    {
      if !EmptyString(p) {
        var pathOrValue := if resultType == PathType then Text(AsPath(p)) else Value(v);
        result := result + [pathOrValue];
      }
      stored := !EmptyString(p);
    }

    /**
     * `trace`: the entries stored while `expr` is consumed at `val` are those
     * of the matcher's specification, and so is the exception, if any.
     */
    method Trace(expr: string, val: Node, path: string, fuel: nat) returns (err: Option<Error>)
      requires WellFormed(val)
      modifies this`result
      ensures result == old(result) + StoredAll(resultType, Matcher.Trace(ev, obj, expr, val, path, fuel).matches)
      ensures err == Matcher.Trace(ev, obj, expr, val, path, fuel).error
      decreases fuel, Size(val), Steps(expr), TraceRank(expr, val), 3
    {
      if expr == "" {
        var _ := Store(path, val);
        return None;
      }
      var parts := Split(expr, ';');
      var loc := parts[0];
      var x := Join(parts[1..], ";");
      LocRestExplode(expr);
      TraceCases(ev, obj, expr, val, path, fuel);
      if KeyExists(val, loc) {
        err := Trace(x, Child(val, loc), path + ";" + loc, fuel);
      } else if loc == "*" {
        err := Walk(loc, x, val, path, Asterisk, fuel);
      } else if loc == ".." {
        ghost var a := Matcher.Trace(ev, obj, x, val, path, fuel);
        ghost var b := Matcher.Walk(ev, obj, DoubleDot, loc, x, val, path, fuel, 0);
        err := Trace(x, val, path, fuel);
        if err.None? {
          err := Walk(loc, x, val, path, DoubleDot, fuel);
          ThenStep(resultType, old(result), a.matches, b, Nothing);
        }
      } else {
        err := TraceOther(expr, loc, x, val, path, fuel);
      }
    }

    /** The script branch of `trace`: `evalx` names a key, which replaces `(expr)`. */
    method TraceScript(expr: string, loc: string, x: string, val: Node, path: string, fuel: nat) returns (err: Option<Error>)
      requires WellFormed(val) && expr != "" && loc == Loc(expr) && x == Rest(expr)
      requires !KeyExists(val, loc) && loc != "*" && loc != ".." && IsScript(loc)
      modifies this`result
      ensures result == old(result) + StoredAll(resultType, TraceOf(ev, obj, expr, val, path, fuel).matches)
      ensures err == TraceOf(ev, obj, expr, val, path, fuel).error
      decreases fuel, Size(val), Steps(expr), TraceRank(expr, val), 0
    {
      ScriptUnfold(ev, obj, expr, val, path, fuel);
      err := ScriptKey(loc, x, val, path, fuel);
    }

    /** The script branch proper: `evalx` gives the key, or the trace stops with an error. */
    method ScriptKey(loc: string, x: string, val: Node, path: string, fuel: nat) returns (err: Option<Error>)
      requires WellFormed(val)
      modifies this`result
      ensures result == old(result) + StoredAll(resultType, ScriptOutcome(ev, obj, loc, x, val, path, fuel).matches)
      ensures err == ScriptOutcome(ev, obj, loc, x, val, path, fuel).error
      decreases fuel, Size(val), Steps(x)
    {
      var key := ev.key(loc, val, obj);
      if key.None? {
        err := Some(EvalError(loc));
      } else if fuel == 0 {
        err := Some(OutOfFuel);
      } else {
        err := TraceBelow(key.value + ";" + x, val, path, fuel - 1);
      }
    }

    /** `Trace` again, measured by the script bound alone: the script branch's way back in. */
    method TraceBelow(expr: string, val: Node, path: string, fuel: nat) returns (err: Option<Error>)
      requires WellFormed(val)
      modifies this`result
      ensures result == old(result) + StoredAll(resultType, TraceOf(ev, obj, expr, val, path, fuel).matches)
      ensures err == TraceOf(ev, obj, expr, val, path, fuel).error
      decreases fuel
    {
      err := Trace(expr, val, path, fuel);
    }

    /** The branches of `trace` after `..`: a script, a filter, a slice, a union, or nothing. */
    method TraceOther(expr: string, loc: string, x: string, val: Node, path: string, fuel: nat) returns (err: Option<Error>)
      requires WellFormed(val) && expr != "" && loc == Loc(expr) && x == Rest(expr)
      requires !KeyExists(val, loc) && loc != "*" && loc != ".."
      modifies this`result
      ensures result == old(result) + StoredAll(resultType, TraceOf(ev, obj, expr, val, path, fuel).matches)
      ensures err == TraceOf(ev, obj, expr, val, path, fuel).error
      decreases fuel, Size(val), Steps(expr), TraceRank(expr, val), 2
    {
      if IsScript(loc) {
        err := TraceScript(expr, loc, x, val, path, fuel);
      } else {
        err := TraceLocator(expr, loc, x, val, path, fuel);
      }
    }

    /** The branches of `trace` for a filter, a slice, a union, or a location that matches nothing. */
    method TraceLocator(expr: string, loc: string, x: string, val: Node, path: string, fuel: nat) returns (err: Option<Error>)
      requires WellFormed(val) && expr != "" && loc == Loc(expr) && x == Rest(expr)
      requires !KeyExists(val, loc) && loc != "*" && loc != ".." && !IsScript(loc)
      modifies this`result
      ensures result == old(result) + StoredAll(resultType, TraceOf(ev, obj, expr, val, path, fuel).matches)
      ensures err == TraceOf(ev, obj, expr, val, path, fuel).error
      decreases fuel, Size(val), Steps(expr), TraceRank(expr, val), 1
    {
      if IsFilter(loc) {
        err := TraceFilter(expr, loc, x, val, path, fuel);
      } else if SliceGroups(loc).Some? {
        err := TraceSlice(expr, loc, x, val, path, fuel);
      } else if ',' in loc {
        err := TraceUnion(expr, loc, x, val, path, fuel);
      } else {
        NoMatchCase(ev, obj, expr, val, path, fuel);
        err := None;
      }
    }

    /** The filter branch of `trace`: `walk` with the `?(` callback. */
    method TraceFilter(expr: string, loc: string, x: string, val: Node, path: string, fuel: nat) returns (err: Option<Error>)
      requires WellFormed(val) && expr != "" && loc == Loc(expr) && x == Rest(expr)
      requires KindOf(loc, val) == Kind.Filter
      modifies this`result
      ensures result == old(result) + StoredAll(resultType, TraceOf(ev, obj, expr, val, path, fuel).matches)
      ensures err == TraceOf(ev, obj, expr, val, path, fuel).error
      decreases fuel, Size(val), Steps(expr), TraceRank(expr, val), 0
    {
      FilterCase(ev, obj, expr, val, path, fuel);
      err := Walk(loc, x, val, path, QuestionMarkPrefix, fuel);
    }

    /** The slice branch of `trace`. */
    method TraceSlice(expr: string, loc: string, x: string, val: Node, path: string, fuel: nat) returns (err: Option<Error>)
      requires WellFormed(val) && expr != "" && loc == Loc(expr) && x == Rest(expr)
      requires KindOf(loc, val) == Kind.Slice
      modifies this`result
      ensures result == old(result) + StoredAll(resultType, TraceOf(ev, obj, expr, val, path, fuel).matches)
      ensures err == TraceOf(ev, obj, expr, val, path, fuel).error
      decreases fuel, Size(val), Steps(expr), TraceRank(expr, val), 0
    {
      SliceCase(ev, obj, expr, val, path, fuel);
      err := Slice(loc, x, val, path, fuel);
    }

    /** The union branch of `trace`: each piece in turn. */
    method TraceUnion(expr: string, loc: string, x: string, val: Node, path: string, fuel: nat) returns (err: Option<Error>)
      requires WellFormed(val) && expr != "" && loc == Loc(expr) && x == Rest(expr)
      requires KindOf(loc, val) == Kind.Union
      modifies this`result
      ensures result == old(result) + StoredAll(resultType, TraceOf(ev, obj, expr, val, path, fuel).matches)
      ensures err == TraceOf(ev, obj, expr, val, path, fuel).error
      decreases fuel, Size(val), Steps(expr), TraceRank(expr, val), 0
    {
      UnionCase(ev, obj, expr, val, path, fuel);
      err := Union(loc, x, val, path, fuel);
    }

    /** One pass of the `for` loop of the union branch: element `t` with the tail `x`. */
    method TraceToken(t: string, x: string, val: Node, path: string, fuel: nat) returns (err: Option<Error>)
      requires WellFormed(val) && ';' !in t && ',' !in t
      modifies this`result
      ensures result == old(result) + StoredAll(resultType, Matcher.Trace(ev, obj, t + ";" + x, val, path, fuel).matches)
      ensures err == Matcher.Trace(ev, obj, t + ";" + x, val, path, fuel).error
      decreases fuel, Size(val), 1 + Steps(x), 3, 4
    {
      StepsCons(t, x);
      LocRestCons(t, x);
      err := Trace(t + ";" + x, val, path, fuel);
    }

    /** The union branch of `trace`: each comma-separated element with the same tail. */
    method Union(loc: string, x: string, val: Node, path: string, fuel: nat) returns (err: Option<Error>)
      requires WellFormed(val) && ';' !in loc
      modifies this`result
      ensures result == old(result) + StoredAll(resultType, TraceEach(ev, obj, Pieces(loc), 0, x, val, path, fuel).matches)
      ensures err == TraceEach(ev, obj, Pieces(loc), 0, x, val, path, fuel).error
      decreases fuel, Size(val), 1 + Steps(x), 4, 1
    {
      err := Each(Pieces(loc), x, val, path, fuel);
    }

    /** The `for` loop over the elements of a union, stopping at the first exception. */
    method Each(s: seq<string>, x: string, val: Node, path: string, fuel: nat) returns (err: Option<Error>)
      requires WellFormed(val)
      requires forall k :: 0 <= k < |s| ==> ';' !in s[k] && ',' !in s[k]
      modifies this`result
      ensures result == old(result) + StoredAll(resultType, TraceEach(ev, obj, s, 0, x, val, path, fuel).matches)
      ensures err == TraceEach(ev, obj, s, 0, x, val, path, fuel).error
      decreases fuel, Size(val), 1 + Steps(x), 4, 0
    {
      ghost var whole := TraceEach(ev, obj, s, 0, x, val, path, fuel);
      ghost var acc: seq<Match> := [];
      var i := 0;
      while i < |s|
        invariant 0 <= i <= |s|
        invariant result == old(result) + StoredAll(resultType, acc)
        invariant Then(Outcome(acc, None), TraceEach(ev, obj, s, i, x, val, path, fuel)) == whole
        decreases |s| - i
      {
        var t := s[i];
        TraceEachCons(ev, obj, s, i, x, val, path, fuel);
        ghost var a := Matcher.Trace(ev, obj, t + ";" + x, val, path, fuel);
        ThenStep(resultType, old(result), acc, a, TraceEach(ev, obj, s, i + 1, x, val, path, fuel));
        var e := TraceToken(t, x, val, path, fuel);
        acc := acc + a.matches;
        if e.Some? {
          return e;
        }
        i := i + 1;
      }
      ThenDone(acc);
      return None;
    }

    /** `walk`: the callback for every member of an array node, in order. */
    method Walk(loc: string, x: string, val: Node, path: string, f: Callback, fuel: nat) returns (err: Option<Error>)
      requires WellFormed(val)
      requires f.QuestionMarkPrefix? ==> IsFilter(loc)
      modifies this`result
      ensures result == old(result) + StoredAll(resultType, Matcher.Walk(ev, obj, f, loc, x, val, path, fuel, 0).matches)
      ensures err == Matcher.Walk(ev, obj, f, loc, x, val, path, fuel, 0).error
      decreases fuel, Size(val), 1 + Steps(x), 2, 0
    {
      if !val.Arr? {
        return None;
      }
      ghost var whole := Matcher.Walk(ev, obj, f, loc, x, val, path, fuel, 0);
      ghost var acc: seq<Match> := [];
      var i := 0;
      while i < |val.members|
        invariant 0 <= i <= |val.members|
        invariant result == old(result) + StoredAll(resultType, acc)
        invariant Then(Outcome(acc, None), Matcher.Walk(ev, obj, f, loc, x, val, path, fuel, i)) == whole
        decreases |val.members| - i
      {
        WalkCons(ev, obj, f, loc, x, val, path, fuel, i);
        ghost var a := Call(ev, obj, f, i, loc, x, val, path, fuel);
        ThenStep(resultType, old(result), acc, a, Matcher.Walk(ev, obj, f, loc, x, val, path, fuel, i + 1));
        var e := CallOne(f, val.members[i].key, loc, x, val, path, fuel, i);
        acc := acc + a.matches;
        if e.Some? {
          return e;
        }
        i := i + 1;
      }
      ThenDone(acc);
      return None;
    }

    /** `call_user_func` in `walk`: the callback named by `f` on member `i`, whose key is `m`. */
    method CallOne(f: Callback, m: string, loc: string, x: string, val: Node, path: string, fuel: nat, ghost i: nat)
      returns (err: Option<Error>)
      requires WellFormed(val) && val.Arr? && i < |val.members| && val.members[i].key == m
      requires f.QuestionMarkPrefix? ==> IsFilter(loc)
      modifies this`result
      ensures result == old(result) + StoredAll(resultType, Call(ev, obj, f, i, loc, x, val, path, fuel).matches)
      ensures err == Call(ev, obj, f, i, loc, x, val, path, fuel).error
      decreases fuel, Size(val), 1 + Steps(x), 1, 1
    {
      if f == Asterisk {
        err := CallbackLocatorAsterisk(m, loc, x, val, path, fuel, i);
      } else if f == DoubleDot {
        err := CallbackLocatorDoubleDot(m, loc, x, val, path, fuel, i);
      } else {
        err := CallbackLocationQuestionMarkPrefix(m, loc, x, val, path, fuel, i);
      }
    }

    /** `callbackLocatorAsterisk`: the tail after member key `m`. */
    method CallbackLocatorAsterisk(m: string, l: string, x: string, v: Node, p: string, fuel: nat, ghost i: nat)
      returns (err: Option<Error>)
      requires WellFormed(v) && v.Arr? && i < |v.members| && v.members[i].key == m
      modifies this`result
      ensures result == old(result) + StoredAll(resultType, Call(ev, obj, Asterisk, i, l, x, v, p, fuel).matches)
      ensures err == Call(ev, obj, Asterisk, i, l, x, v, p, fuel).error
      decreases fuel, Size(v), 1 + Steps(x), 1, 0
    {
      CallCases(ev, obj, Asterisk, i, l, x, v, p, fuel);
      StepsCons(m, x);
      LocRestCons(m, x);
      err := Trace(m + ";" + x, v, p, fuel);
    }

    /** `callbackLocatorDoubleDot`: `..` again below member `m` when it is an array. */
    method CallbackLocatorDoubleDot(m: string, l: string, x: string, v: Node, p: string, fuel: nat, ghost i: nat)
      returns (err: Option<Error>)
      requires WellFormed(v) && v.Arr? && i < |v.members| && v.members[i].key == m
      modifies this`result
      ensures result == old(result) + StoredAll(resultType, Call(ev, obj, DoubleDot, i, l, x, v, p, fuel).matches)
      ensures err == Call(ev, obj, DoubleDot, i, l, x, v, p, fuel).error
      decreases fuel, Size(v), 1 + Steps(x), 1, 0
    {
      CallCases(ev, obj, DoubleDot, i, l, x, v, p, fuel);
      if Child(v, m).Arr? {
        err := Trace("..;" + x, Child(v, m), p + ";" + m, fuel);
      } else {
        err := None;
      }
    }

    /** `callbackLocationQuestionMarkPrefix`: the tail after `m` when the filter holds for it. */
    method CallbackLocationQuestionMarkPrefix(m: string, l: string, x: string, v: Node, p: string, fuel: nat, ghost i: nat)
      returns (err: Option<Error>)
      requires WellFormed(v) && v.Arr? && i < |v.members| && v.members[i].key == m && IsFilter(l)
      modifies this`result
      ensures result == old(result) + StoredAll(resultType, Call(ev, obj, QuestionMarkPrefix, i, l, x, v, p, fuel).matches)
      ensures err == Call(ev, obj, QuestionMarkPrefix, i, l, x, v, p, fuel).error
      decreases fuel, Size(v), 1 + Steps(x), 1, 0
    {
      CallCases(ev, obj, QuestionMarkPrefix, i, l, x, v, p, fuel);
      StepsCons(m, x);
      LocRestCons(m, x);
      var pass := ev.test(FilterBody(l), Child(v, m), obj);
      if pass.None? {
        err := Some(EvalError(FilterBody(l)));
      } else if pass.value {
        err := Trace(m + ";" + x, v, p, fuel);
      } else {
        err := None;
      }
    }

    /**
     * `slice`: the plan, then `for ($i = $start; $i < $end; $i += $step)`.
     * A negative step below the end is reported instead of looping.
     */
    method Slice(loc: string, x: string, v: Node, path: string, fuel: nat) returns (err: Option<Error>)
      requires WellFormed(v) && SliceGroups(loc).Some?
      modifies this`result
      ensures result == old(result) + StoredAll(resultType, SliceOutcome(ev, obj, loc, x, v, path, fuel).matches)
      ensures err == SliceOutcome(ev, obj, loc, x, v, path, fuel).error
      decreases fuel, Size(v), 1 + Steps(x), 2, 1
    {
      var (g1, g2, g3) := SliceGroups(loc).value;
      var length := Count(v);
      var p := Plan(g1, g2, g3, length);
      ghost var o := SliceOutcome(ev, obj, loc, x, v, path, fuel);
      if p.step < 0 {
        assert o.matches == [];
        err := if p.start < p.end then Some(Diverges) else None;
      } else {
        assert o == SliceLoop(ev, obj, p, p.start, x, v, path, fuel);
        err := SliceFor(p, x, v, path, fuel);
      }
    }

    /** One pass of the `for` loop of `slice`: the numeral `t` with the tail `x`. */
    method TraceNumeral(t: string, x: string, val: Node, path: string, fuel: nat) returns (err: Option<Error>)
      requires WellFormed(val) && IsNumeral(t)
      modifies this`result
      ensures result == old(result) + StoredAll(resultType, Matcher.Trace(ev, obj, t + ";" + x, val, path, fuel).matches)
      ensures err == Matcher.Trace(ev, obj, t + ";" + x, val, path, fuel).error
      decreases fuel, Size(val), 1 + Steps(x), 1, 0
    {
      NumeralRank(t, val);
      StepsCons(t, x);
      LocRestCons(t, x);
      err := Trace(t + ";" + x, val, path, fuel);
    }

    /** What the `for` loop of `slice` still has to produce from index `i` on. */
    ghost function SliceFrom(p: SlicePlan, i: int, x: string, v: Node, path: string, fuel: nat, root: Node): Outcome
      requires WellFormed(v) && p.step > 0 && p.start >= 0 && i >= p.start && IsNumeral(p.first)
    {
      SliceLoop(ev, root, p, i, x, v, path, fuel)
    }

    /** One pass of the `for` loop of `slice`, at index `i`. */
    method SliceStep(p: SlicePlan, i: int, x: string, v: Node, path: string, fuel: nat, ghost root: Node)
      returns (err: Option<Error>, ghost a: Outcome)
      requires WellFormed(v) && p.step > 0 && p.start >= 0 && IsNumeral(p.first) && p.start <= i < p.end
      requires obj == root
      modifies this`result
      ensures result == old(result) + StoredAll(resultType, a.matches) && err == a.error
      ensures SliceFrom(p, i, x, v, path, fuel, root) == Then(a, SliceFrom(p, i + p.step, x, v, path, fuel, root))
      decreases fuel, Size(v), 1 + Steps(x), 1, 1
    {
      var t := SliceToken(p, i);
      NumeralRank(t, v);
      SliceLoopUnfold(ev, root, p, i, t, x, v, path, fuel);
      a := TraceOf(ev, root, t + ";" + x, v, path, fuel);
      err := TraceNumeral(t, x, v, path, fuel);
    }

    /** The `for` loop of `slice`, stopping at the first exception. */
    method SliceFor(p: SlicePlan, x: string, v: Node, path: string, fuel: nat) returns (err: Option<Error>)
      requires WellFormed(v) && p.step > 0 && p.start >= 0 && IsNumeral(p.first)
      modifies this`result
      ensures result == old(result) + StoredAll(resultType, SliceLoop(ev, obj, p, p.start, x, v, path, fuel).matches)
      ensures err == SliceLoop(ev, obj, p, p.start, x, v, path, fuel).error
      decreases fuel, Size(v), 1 + Steps(x), 2, 0
    {
      ghost var root := obj;
      ghost var whole := SliceFrom(p, p.start, x, v, path, fuel, root);
      ghost var rest := whole;
      ghost var acc: seq<Match> := [];
      var i := p.start;
      while i < p.end
        invariant p.start <= i && obj == root
        invariant result == old(result) + StoredAll(resultType, acc)
        invariant rest == SliceFrom(p, i, x, v, path, fuel, root)
        invariant Then(Outcome(acc, None), rest) == whole
        decreases p.end - i
      {
        ghost var next := SliceFrom(p, i + p.step, x, v, path, fuel, root);
        var e, a := SliceStep(p, i, x, v, path, fuel, root);
        ThenStep(resultType, old(result), acc, a, next);
        acc := acc + a.matches;
        if e.Some? {
          return e;
        }
        i := i + p.step;
        rest := next;
      }
      ThenDone(acc);
      return None;
    }

    /**
     * `jsonPath`: set the result type and the document, then, when the guard
     * holds, normalize, trace from `$` and answer the stored entries or
     * `false` for none; the TypeError out of `normalize` escapes.
     */
    method Query(data: Node, jsonPath: string, args: Option<string>) returns (answer: Answer)
      requires data.Arr? && WellFormed(data)
      modifies this`obj, this`resultType, this`result
      ensures obj == data && resultType == ResultTypeOf(args)
      ensures (answer, result) == Answered(ev, fuel, data, jsonPath, ResultTypeOf(args), old(result))
    {
      resultType := ResultTypeOf(args);
      obj := data;
      if !EmptyString(jsonPath) && |data.members| > 0 && IsValidResultType(resultType) {
        var normalized := Normalize(jsonPath);
        if normalized.None? {
          return Raised(TypeError);
        }
        var expr := StripRoot(normalized.value);
        ghost var o := Matcher.Trace(ev, data, expr, data, "$", fuel);
        var err := Trace(expr, data, "$", fuel);
        assert result == StoredAll(resultType, o.matches) by {
          assert [] + StoredAll(resultType, o.matches) == StoredAll(resultType, o.matches);
        }
        if err.Some? {
          return Raised(err.value);
        }
        if |result| > 0 {
          return Results(result);
        }
      }
      return NoResult;
    }
  }
}

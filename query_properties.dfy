/**
 * What `jsonPath` promises its callers: when it answers `false`, that every
 * entry it answers is one match of the matcher at the location the match
 * names, and that the `VALUE` and `PATH` modes answer the same matches.
 */
module QueryProperties {
  import opened Prelude
  import opened Document
  import opened Matcher
  import opened Locations
  import opened Engine
  import MatcherProperties
  import PathNormalization

  /** The matches of the trace `jsonPath` runs: none when `normalize` raises. */
  function QueryMatches(ev: Evaluator, fuel: nat, data: Node, jsonPath: string, buf: seq<Entry>): seq<Match>
    requires WellFormed(data)
  {
    match Prepared(jsonPath, buf)
    case None => []
    case Some(expr) => Matcher.Trace(ev, data, expr, data, "$", fuel).matches
  }

  /** The exception that ends a query: the TypeError out of `normalize`, or the one the trace raised. */
  function QueryError(ev: Evaluator, fuel: nat, data: Node, jsonPath: string, buf: seq<Entry>): Option<Error>
    requires WellFormed(data)
  {
    match Prepared(jsonPath, buf)
    case None => Some(TypeError)
    case Some(expr) => Matcher.Trace(ev, data, expr, data, "$", fuel).error
  }

  /** Every match of a query sits in the document at the location its path names. */
  lemma MatchesAddressed(ev: Evaluator, fuel: nat, data: Node, jsonPath: string, buf: seq<Entry>)
    requires WellFormed(data)
    ensures forall j :: 0 <= j < |QueryMatches(ev, fuel, data, jsonPath, buf)| ==>
              Addressed(data, QueryMatches(ev, fuel, data, jsonPath, buf)[j])
  {
    if Prepared(jsonPath, buf).Some? {
      QueryAddressed(ev, data, Prepared(jsonPath, buf).value, fuel);
    }
  }

  /** One stored entry per match: the value, or the canonical path. */
  lemma EntriesOfMatches(ev: Evaluator, fuel: nat, data: Node, jsonPath: string, resultType: string, buf: seq<Entry>)
    requires WellFormed(data)
    ensures var ms := QueryMatches(ev, fuel, data, jsonPath, buf);
      |StoredAll(resultType, ms)| == |ms| &&
      forall j :: 0 <= j < |ms| ==>
        StoredAll(resultType, ms)[j] == (if resultType == PathType then Text(AsPath(ms[j].path)) else Value(ms[j].node))
  {
    var ms := QueryMatches(ev, fuel, data, jsonPath, buf);
    MatchesAddressed(ev, fuel, data, jsonPath, buf);
    assert forall j :: 0 <= j < |ms| ==> StartsWith(ms[j].path, "$") by {
      forall j | 0 <= j < |ms| ensures StartsWith(ms[j].path, "$") {
        assert Addressed(data, ms[j]);
      }
    }
    StoredEveryMatch(resultType, ms);
  }

  /**
   * `jsonPath` answers `false` exactly when the path is empty, the array is
   * empty, the result type is unknown, or the trace ends without an
   * exception and without a match.
   */
  lemma FalseExactly(ev: Evaluator, fuel: nat, data: Node, jsonPath: string, resultType: string, buf: seq<Entry>)
    requires WellFormed(data)
    ensures Answered(ev, fuel, data, jsonPath, resultType, buf).0 == NoResult
        <==> (!Runs(data, jsonPath, resultType)
              || (QueryError(ev, fuel, data, jsonPath, buf).None? && |QueryMatches(ev, fuel, data, jsonPath, buf)| == 0))
  {
    EntriesOfMatches(ev, fuel, data, jsonPath, resultType, buf);
  }

  /** When the guard fails, nothing is traced and the buffer is left as it was. */
  lemma GuardLeavesBuffer(ev: Evaluator, fuel: nat, data: Node, jsonPath: string, resultType: string, buf: seq<Entry>)
    requires WellFormed(data)
    requires EmptyString(jsonPath) || !data.Arr? || |data.members| == 0 || !IsValidResultType(resultType)
    ensures Answered(ev, fuel, data, jsonPath, resultType, buf) == (NoResult, buf)
  {
  }

  /**
   * A non-`false` answer holds only this call's entries, one per match, in
   * matcher order; in `VALUE` mode each is the node found by following the
   * keys of its match's path from the root.
   */
  lemma AnswerIsMatches(ev: Evaluator, fuel: nat, data: Node, jsonPath: string, resultType: string, buf: seq<Entry>)
    requires WellFormed(data)
    requires Answered(ev, fuel, data, jsonPath, resultType, buf).0.Results?
    ensures var es, ms := Answered(ev, fuel, data, jsonPath, resultType, buf).0.entries, QueryMatches(ev, fuel, data, jsonPath, buf);
      && Answered(ev, fuel, data, jsonPath, resultType, buf).1 == es
      && |es| == |ms| > 0
      && (forall j :: 0 <= j < |ms| ==> Locate(data, PathKeys(ms[j].path)) == Some(ms[j].node))
      && (forall j :: 0 <= j < |ms| ==>
            es[j] == if resultType == PathType then Text(AsPath(ms[j].path)) else Value(ms[j].node))
  {
    EntriesOfMatches(ev, fuel, data, jsonPath, resultType, buf);
    MatchesAddressed(ev, fuel, data, jsonPath, buf);
  }

  /**
   * The two result types answer the same query alike: both `false`, both the
   * same exception, or entries in step, the `j`-th `PATH` entry naming where
   * the `j`-th `VALUE` entry sits.
   */
  lemma ModesAgree(ev: Evaluator, fuel: nat, data: Node, jsonPath: string, buf: seq<Entry>)
    requires WellFormed(data)
    ensures var v, p := Answered(ev, fuel, data, jsonPath, ValueType, buf).0, Answered(ev, fuel, data, jsonPath, PathType, buf).0;
      && (v.NoResult? <==> p.NoResult?)
      && (v.Raised? <==> p.Raised?)
      && (v.Raised? ==> v.error == p.error)
      && (v.Results? ==> p.Results? && |v.entries| == |p.entries|)
      && (v.Results? ==> forall j :: 0 <= j < |v.entries| ==>
            var m := QueryMatches(ev, fuel, data, jsonPath, buf)[j];
            v.entries[j] == Value(m.node) && p.entries[j] == Text(AsPath(m.path)) && Addressed(data, m))
  {
    EntriesOfMatches(ev, fuel, data, jsonPath, ValueType, buf);
    EntriesOfMatches(ev, fuel, data, jsonPath, PathType, buf);
    MatchesAddressed(ev, fuel, data, jsonPath, buf);
  }

  /**
   * The fuel bound is only a bound: a query that was not stopped by it
   * answers the same, and leaves the same accumulator, with more fuel.
   */
  lemma AnsweredFuel(ev: Evaluator, lo: nat, hi: nat, data: Node, jsonPath: string, resultType: string, buf: seq<Entry>)
    requires WellFormed(data) && lo <= hi
    requires Answered(ev, lo, data, jsonPath, resultType, buf).0 != Raised(OutOfFuel)
    ensures Answered(ev, hi, data, jsonPath, resultType, buf) == Answered(ev, lo, data, jsonPath, resultType, buf)
  {
    if Runs(data, jsonPath, resultType) && Prepared(jsonPath, buf).Some? {
      MatcherProperties.TraceFuel(ev, data, Prepared(jsonPath, buf).value, data, "$", lo, hi);
    }
  }

  /**
   * A path with a quoted key, a script or a filter never reaches `trace`:
   * once the guard holds, the query raises the TypeError out of
   * `normalize` and leaves the buffer as it was.
   */
  lemma ParkedPathRaises(ev: Evaluator, fuel: nat, data: Node, steps: seq<PathNormalization.Step>, resultType: string, buf: seq<Entry>)
    requires WellFormed(data) && |steps| > 0 && PathNormalization.AllWellWritten(steps)
    requires Runs(data, "$" + PathNormalization.PathText(steps), resultType)
    requires exists i :: 0 <= i < |steps| && PathNormalization.Parked(steps[i])
    ensures Answered(ev, fuel, data, "$" + PathNormalization.PathText(steps), resultType, buf) == (Raised(TypeError), buf)
  {
    PathNormalization.PathRaises(steps, buf);
  }

  /** A path of plain steps reaches `trace` as its step tokens joined by ';'. */
  lemma PlainPathPrepared(steps: seq<PathNormalization.Step>, buf: seq<Entry>)
    requires |steps| > 0 && PathNormalization.AllWellWritten(steps)
    requires forall i :: 0 <= i < |steps| ==> !PathNormalization.Parked(steps[i])
    ensures Prepared("$" + PathNormalization.PathText(steps), buf)
         == Some(Join(PathNormalization.TokenList(steps), ";"))
  {
    PathNormalization.PathRaises(steps, buf);
    PathNormalization.StripJoined(Join(PathNormalization.TokenList(steps), ";"));
  }

  /** `jsonPath($data, "$['store'].book[0]")` raises the TypeError and leaves the buffer alone. */
  lemma QuotedStoreQueryRaises(ev: Evaluator, fuel: nat, data: Node, resultType: string, buf: seq<Entry>)
    requires WellFormed(data) && data.Arr? && |data.members| > 0 && IsValidResultType(resultType)
    ensures Answered(ev, fuel, data, "$['store'].book[0]", resultType, buf) == (Raised(TypeError), buf)
  {
    PathNormalization.QuotedStoreRaises(buf);
  }
}

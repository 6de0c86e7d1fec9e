/**
 * Where the matches are. Every match `trace` stores pairs a ';'-separated
 * path with a node, and the path is an address: following its keys from the
 * document's root, through members that exist, arrives at exactly that node.
 * This is what lets `JsonStore` ask for paths and then walk to the values.
 */
module Locations {
  import opened Prelude
  import opened Document
  import opened Matcher

  /** The node reached from `n` through existing keys; None when a key is missing. */
  function Locate(n: Node, keys: seq<string>): (r: Option<Node>)
    ensures |keys| == 0 ==> r == Some(n)
    decreases |keys|
  {
    if |keys| == 0 then Some(n)
    else if KeyExists(n, keys[0]) then Locate(Child(n, keys[0]), keys[1..])
    else None
  }

  /** The keys a matcher path names after its root symbol `$`. */
  function PathKeys(path: string): (r: seq<string>)
    ensures forall k :: 0 <= k < |r| ==> ';' !in r[k]
  {
    Split(path, ';')[1..]
  }

  /** A path tail, empty or `;k1;k2..`, that leads from `n` to `node`. */
  predicate Leads(n: Node, tail: string, node: Node)
  {
    if tail == "" then node == n
    else tail[0] == ';' && Locate(n, Split(tail[1..], ';')) == Some(node)
  }

  /** Match `m`, found below `n` reached as `path`, is addressed by its path. */
  predicate Reaches(n: Node, path: string, m: Match)
  {
    StartsWith(m.path, path) && Leads(n, m.path[|path|..], m.node)
  }

  predicate AllReach(n: Node, path: string, o: Outcome)
  {
    forall j :: 0 <= j < |o.matches| ==> Reaches(n, path, o.matches[j])
  }

  lemma SplitCons(k: string, t: string)
    requires ';' !in k
    ensures Split(k + ";" + t, ';') == [k] + Split(t, ';')
  {
    IndexOfAfterFree(k, ';', t);
    var s := k + ";" + t;
    assert s[..|k|] == k;
    assert s[|k| + 1..] == t;
  }

  lemma SplitFree(k: string)
    requires ';' !in k
    ensures Split(k, ';') == [k]
  {
    assert IndexOf(k, ';').None?;
  }

  /** A match found below the child `k` of `n` is also found below `n`. */
  lemma Widen(n: Node, path: string, k: string, m: Match)
    requires KeyExists(n, k) && ';' !in k
    requires Reaches(Child(n, k), path + ";" + k, m)
    ensures Reaches(n, path, m)
  {
    var t := m.path[|path + ";" + k|..];
    PathTail(m.path, path, k);
    LeadsDown(n, k, t, m.node);
  }

  /** A path that starts with `path;k` starts with `path`, followed by `;k` and the rest. */
  lemma PathTail(s: string, path: string, k: string)
    requires StartsWith(s, path + ";" + k)
    ensures StartsWith(s, path)
    ensures s[|path|..] == ";" + (k + s[|path + ";" + k|..])
  {
    var p := path + ";" + k;
    var t := s[|p|..];
    assert s == p + t by { assert s[..|p|] == p; }
    assert s[..|path|] == path;
  }

  /** A tail that leads from the child `k` leads from `n` once `;k` is put in front. */
  lemma LeadsDown(n: Node, k: string, t: string, node: Node)
    requires KeyExists(n, k) && ';' !in k
    requires Leads(Child(n, k), t, node)
    ensures Leads(n, ";" + (k + t), node)
  {
    var s := ";" + (k + t);
    assert s[0] == ';' && s[1..] == k + t;
    if t == "" {
      assert k + t == k;
      SplitFree(k);
      LocateCons(n, k, []);
      assert [k] + [] == [k];
    } else {
      var u := t[1..];
      assert k + t == k + ";" + u by { assert t == ";" + u; }
      SplitCons(k, u);
      LocateCons(n, k, Split(u, ';'));
    }
  }

  lemma LocateCons(n: Node, k: string, rest: seq<string>)
    requires KeyExists(n, k)
    ensures Locate(n, [k] + rest) == Locate(Child(n, k), rest)
  {
    assert ([k] + rest)[1..] == rest;
  }

  lemma WidenAll(n: Node, path: string, k: string, o: Outcome)
    requires KeyExists(n, k) && ';' !in k
    requires AllReach(Child(n, k), path + ";" + k, o)
    ensures AllReach(n, path, o)
  {
    forall j | 0 <= j < |o.matches|
      ensures Reaches(n, path, o.matches[j])
    {
      Widen(n, path, k, o.matches[j]);
    }
  }

  lemma ThenReach(n: Node, path: string, a: Outcome, b: Outcome)
    requires AllReach(n, path, a) && AllReach(n, path, b)
    ensures AllReach(n, path, Then(a, b))
  {
    var r := Then(a, b);
    if a.error.None? {
      forall j | 0 <= j < |r.matches|
        ensures Reaches(n, path, r.matches[j])
      {
        if j >= |a.matches| {
          assert r.matches[j] == b.matches[j - |a.matches|];
        }
      }
    }
  }

  /** Every match of `trace` is addressed by its own path. */
  lemma TraceReaches(ev: Evaluator, root: Node, expr: string, val: Node, path: string, fuel: nat)
    requires WellFormed(val)
    ensures AllReach(val, path, Trace(ev, root, expr, val, path, fuel))
    decreases fuel, Size(val), Steps(expr), TraceRank(expr, val), 1
  {
    if expr == "" {
      assert path[|path|..] == "";
      assert path[..|path|] == path;
    } else {
      var k := KindOf(Loc(expr), val);
      if k == KeyStep {
        KeyReaches(ev, root, expr, val, path, fuel);
      } else if k == Descent {
        DescentReaches(ev, root, expr, val, path, fuel);
      } else if k == Script {
        ScriptReaches(ev, root, expr, val, path, fuel, Trace(ev, root, expr, val, path, fuel));
      } else if k == Slice {
        SliceCaseReaches(ev, root, expr, val, path, fuel);
      } else if k == Star {
        StarReaches(ev, root, expr, val, path, fuel);
      } else if k == Filter {
        FilterReaches(ev, root, expr, val, path, fuel);
      } else if k == Union {
        UnionReaches(ev, root, expr, val, path, fuel);
      } else {
        NoMatchCase(ev, root, expr, val, path, fuel);
      }
    }
  }

  /** The branch of `trace` that steps into an existing member. */
  lemma KeyReaches(ev: Evaluator, root: Node, expr: string, val: Node, path: string, fuel: nat)
    requires WellFormed(val) && expr != "" && KindOf(Loc(expr), val) == KeyStep
    ensures AllReach(val, path, Trace(ev, root, expr, val, path, fuel))
    decreases fuel, Size(val), Steps(expr), TraceRank(expr, val), 0
  {
    var loc, x := Loc(expr), Rest(expr);
    ChildShrinks(val, loc);
    var o := Trace(ev, root, x, Child(val, loc), path + ";" + loc, fuel);
    assert Trace(ev, root, expr, val, path, fuel) == o;
    TraceReaches(ev, root, x, Child(val, loc), path + ";" + loc, fuel);
    WidenAll(val, path, loc, o);
  }

  /** The `..` branch of `trace`: the rest here, then the walk below. */
  lemma DescentReaches(ev: Evaluator, root: Node, expr: string, val: Node, path: string, fuel: nat)
    requires WellFormed(val) && expr != "" && KindOf(Loc(expr), val) == Descent
    ensures AllReach(val, path, Trace(ev, root, expr, val, path, fuel))
    decreases fuel, Size(val), Steps(expr), TraceRank(expr, val), 0
  {
    var loc, x := Loc(expr), Rest(expr);
    var a, b := Trace(ev, root, x, val, path, fuel), Walk(ev, root, DoubleDot, loc, x, val, path, fuel, 0);
    assert Trace(ev, root, expr, val, path, fuel) == Then(a, b);
    TraceReaches(ev, root, x, val, path, fuel);
    WalkReaches(ev, root, DoubleDot, loc, x, val, path, fuel, 0);
    ThenReach(val, path, a, b);
  }

  /** The script branch of `trace`: the evaluated key, traced in its place. */
  lemma ScriptReaches(ev: Evaluator, root: Node, expr: string, val: Node, path: string, fuel: nat, o: Outcome)
    requires WellFormed(val) && expr != "" && KindOf(Loc(expr), val) == Script
    requires o == Trace(ev, root, expr, val, path, fuel)
    ensures AllReach(val, path, o)
    decreases fuel, Size(val), Steps(expr), TraceRank(expr, val), 0
  {
    ScriptUnfold(ev, root, expr, val, path, fuel);
    OutcomeReaches(ev, root, Loc(expr), Rest(expr), val, path, fuel);
  }

  /** The script branch of `trace`, by the key `evalx` gives. */
  lemma OutcomeReaches(ev: Evaluator, root: Node, loc: string, x: string, val: Node, path: string, fuel: nat)
    requires WellFormed(val)
    ensures AllReach(val, path, ScriptOutcome(ev, root, loc, x, val, path, fuel))
    decreases fuel, Size(val), Steps(x)
  {
    match ev.key(loc, val, root)
    case None =>
    case Some(k) =>
      if fuel > 0 {
        FuelReaches(ev, root, k + ";" + x, val, path, fuel - 1);
      }
  }

  /** `TraceReaches` for a smaller script bound, whatever the expression. */
  lemma FuelReaches(ev: Evaluator, root: Node, expr: string, val: Node, path: string, fuel: nat)
    requires WellFormed(val)
    ensures AllReach(val, path, Trace(ev, root, expr, val, path, fuel))
    decreases fuel
  {
    TraceReaches(ev, root, expr, val, path, fuel);
  }

  /** The `*` branch of `trace`: a walk over every member. */
  lemma StarReaches(ev: Evaluator, root: Node, expr: string, val: Node, path: string, fuel: nat)
    requires WellFormed(val) && expr != "" && KindOf(Loc(expr), val) == Star
    ensures AllReach(val, path, Trace(ev, root, expr, val, path, fuel))
    decreases fuel, Size(val), Steps(expr), TraceRank(expr, val), 0
  {
    StarCase(ev, root, expr, val, path, fuel);
    WalkReaches(ev, root, Asterisk, Loc(expr), Rest(expr), val, path, fuel, 0);
  }

  /** The filter branch of `trace`: a walk over the members the filter keeps. */
  lemma FilterReaches(ev: Evaluator, root: Node, expr: string, val: Node, path: string, fuel: nat)
    requires WellFormed(val) && expr != "" && KindOf(Loc(expr), val) == Filter
    ensures AllReach(val, path, Trace(ev, root, expr, val, path, fuel))
    decreases fuel, Size(val), Steps(expr), TraceRank(expr, val), 0
  {
    FilterCase(ev, root, expr, val, path, fuel);
    WalkReaches(ev, root, QuestionMarkPrefix, Loc(expr), Rest(expr), val, path, fuel, 0);
  }

  /** The union branch of `trace`: each piece in its place. */
  lemma UnionReaches(ev: Evaluator, root: Node, expr: string, val: Node, path: string, fuel: nat)
    requires WellFormed(val) && expr != "" && KindOf(Loc(expr), val) == Union
    ensures AllReach(val, path, Trace(ev, root, expr, val, path, fuel))
    decreases fuel, Size(val), Steps(expr), TraceRank(expr, val), 0
  {
    UnionCase(ev, root, expr, val, path, fuel);
    EachReaches(ev, root, Pieces(Loc(expr)), 0, Rest(expr), val, path, fuel);
  }

  /** The slice branch of `trace`. */
  lemma SliceCaseReaches(ev: Evaluator, root: Node, expr: string, val: Node, path: string, fuel: nat)
    requires WellFormed(val) && expr != "" && KindOf(Loc(expr), val) == Slice
    ensures AllReach(val, path, Trace(ev, root, expr, val, path, fuel))
    decreases fuel, Size(val), Steps(expr), TraceRank(expr, val), 0
  {
    var loc, x := Loc(expr), Rest(expr);
    SliceCase(ev, root, expr, val, path, fuel);
    var (g1, g2, g3) := SliceGroups(loc).value;
    var p := Plan(g1, g2, g3, Count(val));
    if p.step > 0 {
      SliceReaches(ev, root, p, p.start, x, val, path, fuel);
    }
  }

  lemma WalkReaches(ev: Evaluator, root: Node, f: Callback, loc: string, x: string, val: Node,
                    path: string, fuel: nat, i: nat)
    requires WellFormed(val)
    requires f.QuestionMarkPrefix? ==> IsFilter(loc)
    ensures AllReach(val, path, Walk(ev, root, f, loc, x, val, path, fuel, i))
    decreases fuel, Size(val), 1 + Steps(x), 2, if val.Arr? then |val.members| - i else 0
  {
    if val.Arr? && i < |val.members| {
      CallReaches(ev, root, f, i, loc, x, val, path, fuel);
      WalkReaches(ev, root, f, loc, x, val, path, fuel, i + 1);
      ThenReach(val, path, Call(ev, root, f, i, loc, x, val, path, fuel), Walk(ev, root, f, loc, x, val, path, fuel, i + 1));
    }
  }

  lemma CallReaches(ev: Evaluator, root: Node, f: Callback, i: nat, loc: string, x: string, val: Node,
                    path: string, fuel: nat)
    requires WellFormed(val) && val.Arr? && i < |val.members|
    requires f.QuestionMarkPrefix? ==> IsFilter(loc)
    ensures AllReach(val, path, Call(ev, root, f, i, loc, x, val, path, fuel))
    decreases fuel, Size(val), 1 + Steps(x), 1, 0
  {
    var m := val.members[i].key;
    ChildAt(val, i);
    StepsCons(m, x);
    LocRestCons(m, x);
    match f
    case Asterisk =>
      TraceReaches(ev, root, m + ";" + x, val, path, fuel);
    case DoubleDot =>
      var v := Child(val, m);
      ChildShrinks(val, m);
      if v.Arr? {
        TraceReaches(ev, root, "..;" + x, v, path + ";" + m, fuel);
        WidenAll(val, path, m, Trace(ev, root, "..;" + x, v, path + ";" + m, fuel));
      }
    case QuestionMarkPrefix =>
      match ev.test(FilterBody(loc), Child(val, m), root)
      case None =>
      case Some(pass) =>
        if pass {
          TraceReaches(ev, root, m + ";" + x, val, path, fuel);
        }
  }

  lemma EachReaches(ev: Evaluator, root: Node, tokens: seq<string>, i: nat, x: string, val: Node,
                    path: string, fuel: nat)
    requires WellFormed(val)
    requires forall k :: 0 <= k < |tokens| ==> ';' !in tokens[k] && ',' !in tokens[k]
    ensures AllReach(val, path, TraceEach(ev, root, tokens, i, x, val, path, fuel))
    decreases fuel, Size(val), 1 + Steps(x), 4, |tokens| - i
  {
    if i < |tokens| {
      var t := tokens[i];
      PieceRank(t, x, val);
      TraceReaches(ev, root, t + ";" + x, val, path, fuel);
      EachReaches(ev, root, tokens, i + 1, x, val, path, fuel);
      ThenReach(val, path, Trace(ev, root, t + ";" + x, val, path, fuel), TraceEach(ev, root, tokens, i + 1, x, val, path, fuel));
    }
  }

  lemma SliceReaches(ev: Evaluator, root: Node, p: SlicePlan, i: int, x: string, val: Node,
                     path: string, fuel: nat)
    requires WellFormed(val)
    requires p.step > 0 && p.start >= 0 && i >= p.start && IsNumeral(p.first)
    ensures AllReach(val, path, SliceLoop(ev, root, p, i, x, val, path, fuel))
    decreases fuel, Size(val), 1 + Steps(x), 2, if i < p.end then p.end - i else 0
  {
    if i < p.end {
      var t := SliceToken(p, i);
      NumeralRank(t, val);
      StepsCons(t, x);
      LocRestCons(t, x);
      TraceReaches(ev, root, t + ";" + x, val, path, fuel);
      SliceReaches(ev, root, p, i + p.step, x, val, path, fuel);
      SliceLoopUnfold(ev, root, p, i, t, x, val, path, fuel);
      ThenReach(val, path, TraceOf(ev, root, t + ";" + x, val, path, fuel), SliceLoop(ev, root, p, i + p.step, x, val, path, fuel));
    }
  }

  /** A match of a query started at the root `$` is addressed by its keys from the root. */
  predicate Addressed(root: Node, m: Match)
  {
    StartsWith(m.path, "$") && Locate(root, PathKeys(m.path)) == Some(m.node)
  }

  lemma RootReaches(root: Node, m: Match)
    requires Reaches(root, "$", m)
    ensures Addressed(root, m)
  {
    var t := m.path[1..];
    assert m.path == "$" + t by { assert m.path[..1] == "$"; }
    if t == "" {
      RootItself(root, m);
    } else {
      RootBelow(root, m, t[1..]);
    }
  }

  /** The match of the root itself, as `$`. */
  lemma RootItself(root: Node, m: Match)
    requires m.path == "$" && m.node == root
    ensures Addressed(root, m)
  {
    assert IndexOf(m.path, ';').None?;
  }

  /** A match below the root, as `$;k1;k2..`. */
  lemma RootBelow(root: Node, m: Match, u: string)
    requires m.path == "$" + ";" + u && Locate(root, Split(u, ';')) == Some(m.node)
    ensures Addressed(root, m)
  {
    SplitCons("$", u);
  }

  /**
   * The query `jsonPath` runs, `trace(expr, $obj, '$')`: each of its matches
   * names, after `$`, the existing keys that lead from the root to its node.
   */
  lemma QueryAddressed(ev: Evaluator, root: Node, expr: string, fuel: nat)
    requires WellFormed(root)
    ensures forall j :: 0 <= j < |Trace(ev, root, expr, root, "$", fuel).matches| ==>
              Addressed(root, Trace(ev, root, expr, root, "$", fuel).matches[j])
  {
    var o := Trace(ev, root, expr, root, "$", fuel);
    TraceReaches(ev, root, expr, root, "$", fuel);
    forall j | 0 <= j < |o.matches|
      ensures Addressed(root, o.matches[j])
    {
      RootReaches(root, o.matches[j]);
    }
  }

  /** A match whose path starts with `$` is stored as one entry. */
  lemma StoredRooted(resultType: string, m: Match)
    requires StartsWith(m.path, "$")
    ensures Stored(resultType, m) == [if resultType == PathType then Text(AsPath(m.path)) else Value(m.node)]
  {
    assert m.path[..1] == "$";
    assert m.path[0] == '$';
  }

  /**
   * `store` drops no match of a query from the root (`if ($p)` never fails on
   * a path that starts with `$`): one entry per match, a canonical path in
   * PATH mode and the node otherwise.
   */
  lemma {:induction false} StoredEveryMatch(resultType: string, ms: seq<Match>)
    requires forall j :: 0 <= j < |ms| ==> StartsWith(ms[j].path, "$")
    ensures |StoredAll(resultType, ms)| == |ms|
    ensures forall j :: 0 <= j < |ms| ==>
              StoredAll(resultType, ms)[j]
              == (if resultType == PathType then Text(AsPath(ms[j].path)) else Value(ms[j].node))
    decreases |ms|
  {
    if |ms| > 0 {
      StoredEveryMatch(resultType, ms[1..]);
      StoredRooted(resultType, ms[0]);
      var rest := StoredAll(resultType, ms[1..]);
      var r := StoredAll(resultType, ms);
      assert r == Stored(resultType, ms[0]) + rest;
      forall j | 0 < j < |ms|
        ensures r[j] == (if resultType == PathType then Text(AsPath(ms[j].path)) else Value(ms[j].node))
      {
        assert r[j] == rest[j - 1];
        assert ms[1..][j - 1] == ms[j];
      }
    }
  }
}

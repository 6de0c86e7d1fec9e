/**
 * What the store's operations mean: the keys it splits out of a canonical
 * path are the keys the matcher followed, `get` returns the values a
 * `VALUE` query returns, and `set`, `add` and `remove` change the located
 * nodes and nothing else.
 */
module StoreProperties {
  import opened Prelude
  import opened Document
  import opened Matcher
  import opened Locations
  import opened Engine
  import opened QueryProperties
  import opened Store

  // ---------------------------------------------------------------------
  // Canonical paths split back into the matcher's keys
  // ---------------------------------------------------------------------

  /** A key the bracket notation carries unambiguously: no quote, no `]`. */
  predicate Clean(key: string)
  {
    forall k :: 0 <= k < |key| ==> !IsQuote(key[k]) && key[k] != ']'
  }

  function Open(seg: string): string { if IndexLike(seg) then "[" else "['" }

  function Close(seg: string): string { if IndexLike(seg) then "]" else "']" }

  /** The keys as they stand between the outer brackets: `k0']['k1'][k2`. */
  function Inner(segs: seq<string>): string
    requires |segs| >= 1
  {
    if |segs| == 1 then segs[0] else segs[0] + Close(segs[0]) + Open(segs[1]) + Inner(segs[1..])
  }

  /** `Inner` with its first key split off. */
  lemma InnerCons(segs: seq<string>)
    requires |segs| > 1
    ensures Inner(segs) == segs[0] + (Close(segs[0]) + Open(segs[1]) + Inner(segs[1..]))
  {
    var c, o, r := Close(segs[0]), Open(segs[1]), Inner(segs[1..]);
    Concat3(segs[0] + c, o, r);
    Concat3(segs[0], c, o + r);
    Concat3(c, o, r);
  }

  lemma InnerStarts(segs: seq<string>)
    requires |segs| >= 1
    ensures |Inner(segs)| >= |segs[0]| && Inner(segs)[..|segs[0]|] == segs[0]
  {
    if |segs| > 1 {
      var rest := Close(segs[0]) + Open(segs[1]) + Inner(segs[1..]);
      assert Inner(segs) == segs[0] + rest;
    }
  }

  lemma {:induction false} InnerEnds(segs: seq<string>)
    requires |segs| >= 1
    ensures var last := segs[|segs| - 1];
      |Inner(segs)| >= |last| && Inner(segs)[|Inner(segs)| - |last|..] == last
  {
    if |segs| > 1 {
      InnerEnds(segs[1..]);
      assert segs[1..][|segs| - 2] == segs[|segs| - 1];
      var front := segs[0] + Close(segs[0]) + Open(segs[1]);
      assert Inner(segs) == front + Inner(segs[1..]);
    }
  }

  lemma {:induction false} BracketsInner(segs: seq<string>)
    requires |segs| >= 1
    ensures Brackets(segs) == Open(segs[0]) + Inner(segs) + Close(segs[|segs| - 1])
  {
    if |segs| > 1 {
      BracketsInner(segs[1..]);
      assert segs[1..][|segs[1..]| - 1] == segs[|segs| - 1];
      assert Bracket(segs[0]) == Open(segs[0]) + segs[0] + Close(segs[0]);
      Regroup(Open(segs[0]), segs[0], Close(segs[0]), Open(segs[1]), Inner(segs[1..]), Close(segs[|segs| - 1]));
    } else {
      assert Brackets(segs[1..]) == "";
      assert Bracket(segs[0]) == Open(segs[0]) + segs[0] + Close(segs[0]);
    }
  }

  lemma Regroup(o: string, s: string, c: string, o1: string, i: string, cl: string)
    ensures (o + s + c) + (o1 + i + cl) == o + (s + c + o1 + i) + cl
  {
  }

  lemma Regroup4(d: string, o: string, i: string, c: string)
    ensures d + (o + i + c) == d + o + (i + c)
  {
  }

  lemma PrefixOfConcat(a: string, b: string, n: nat)
    requires n <= |a|
    ensures (a + b)[..n] == a[..n]
  {
  }

  /** `$[` or `$['` comes off the front. */
  lemma LeadOff(first: string, t: string)
    requires |t| >= |first| && t[..|first|] == first
    requires IndexLike(first) ==> !IsQuote(first[0])
    ensures StripLead("$" + Open(first) + t) == t
  {
    var s := "$" + Open(first) + t;
    if IndexLike(first) {
      assert s == "$[" + t;
      assert s[2] == t[0] == first[0];
      assert s[2..] == t;
    } else {
      assert s == "$['" + t;
      assert s[3..] == t;
    }
  }

  /** `]` or `']` comes off the back. */
  lemma TrailOff(inner: string, last: string)
    requires |inner| >= |last| && inner[|inner| - |last|..] == last
    requires IndexLike(last) ==> !IsQuote(last[|last| - 1])
    ensures StripTrail(inner + Close(last)) == inner
  {
    var t := inner + Close(last);
    if IndexLike(last) {
      assert t == inner + "]";
      assert t[|t| - 2] == inner[|inner| - 1] == last[|last| - 1];
      assert t[..|t| - 1] == inner;
    } else {
      assert t == inner + "']";
      assert t[..|t| - 2] == inner;
    }
  }

  /** A clean key contains no separator, so the split reads across it. */
  lemma {:induction false} SkipClean(seg: string, rest: string, piece: string)
    requires Clean(seg)
    ensures SplitFrom(seg + rest, piece) == SplitFrom(rest, piece + seg)
    decreases |seg|
  {
    if |seg| > 0 {
      var s := seg + rest;
      assert s[0] == seg[0];
      assert SepLength(s) == 0;
      assert s[1..] == seg[1..] + rest;
      SkipClean(seg[1..], rest, piece + [seg[0]]);
      assert piece + [seg[0]] + seg[1..] == piece + seg;
    } else {
      assert seg + rest == rest;
      assert piece + seg == piece;
    }
  }

  /** The separator between two keys is one match of the split pattern. */
  lemma SeparatorSplits(a: string, b: string, rest: string, piece: string)
    requires |rest| >= |b| && rest[..|b|] == b
    requires IndexLike(b) || |b| == 0 || !IsQuote(b[0])
    ensures SplitFrom(Close(a) + Open(b) + rest, piece) == [piece] + SplitFrom(rest, "")
  {
    var sep := Close(a) + Open(b);
    var s := sep + rest;
    assert IndexLike(b) ==> |rest| >= 1 && !IsQuote(rest[0]) by {
      if IndexLike(b) { assert rest[0] == b[0]; }
    }
    assert SepLength(s) == |sep|;
    assert s[|sep|..] == rest;
  }

  lemma {:induction false} SplitInner(segs: seq<string>)
    requires |segs| >= 1
    requires forall k :: 0 <= k < |segs| ==> Clean(segs[k])
    ensures SplitFrom(Inner(segs), "") == segs
  {
    if |segs| == 1 {
      SkipClean(segs[0], "", "");
      assert segs[0] + "" == segs[0];
      assert "" + segs[0] == segs[0];
    } else {
      SplitInnerCons(segs);
      SplitInner(segs[1..]);
      assert [segs[0]] + segs[1..] == segs;
    }
  }

  /** The first key splits off the front of `Inner`. */
  lemma SplitInnerCons(segs: seq<string>)
    requires |segs| > 1
    requires Clean(segs[0]) && Clean(segs[1])
    ensures SplitFrom(Inner(segs), "") == [segs[0]] + SplitFrom(Inner(segs[1..]), "")
  {
    var rest := Inner(segs[1..]);
    InnerCons(segs);
    SkipClean(segs[0], Close(segs[0]) + Open(segs[1]) + rest, "");
    assert "" + segs[0] == segs[0];
    InnerStarts(segs[1..]);
    if |segs[1]| > 0 { assert !IsQuote(segs[1][0]); }
    SeparatorSplits(segs[0], segs[1], rest, segs[0]);
  }

  /** Clean keys written in bracket notation after `$` split back into themselves. */
  lemma KeysOfBrackets(segs: seq<string>)
    requires |segs| >= 1
    requires forall k :: 0 <= k < |segs| ==> Clean(segs[k])
    ensures SplitKeys("$" + Brackets(segs)) == segs
  {
    var first, last := segs[0], segs[|segs| - 1];
    BracketsInner(segs);
    InnerStarts(segs);
    InnerEnds(segs);
    var inner := Inner(segs);
    var t := inner + Close(last);
    Regroup4("$", Open(first), inner, Close(last));
    assert "$" + Brackets(segs) == "$" + Open(first) + t;
    PrefixOfConcat(inner, Close(last), |first|);
    assert IndexLike(first) ==> !IsQuote(first[0]);
    LeadOff(first, t);
    assert IndexLike(last) ==> !IsQuote(last[|last| - 1]);
    TrailOff(inner, last);
    assert StripTrail(StripLead("$" + Brackets(segs))) == inner;
    SplitInner(segs);
  }

  /**
   * `asPath` and the key splitting of `get` undo each other: the keys the
   * store follows for a path are the keys the matcher followed, provided
   * the path has a key and no key holds a quote or `]`.
   */
  lemma KeysRoundTrip(path: string)
    requires |PathKeys(path)| >= 1
    requires forall k :: 0 <= k < |PathKeys(path)| ==> Clean(PathKeys(path)[k])
    ensures SplitKeys(AsPath(path)) == PathKeys(path)
  {
    KeysOfBrackets(PathKeys(path));
  }

  /** The path of the root match has no bracket: its one key is `$` itself. */
  lemma RootKeys()
    ensures SplitKeys("$") == ["$"]
    ensures PathKeys("$") == []
  {
    assert SepLength("$") == 0;
    assert "$"[1..] == "" && "" + ['$'] == "$";
    assert Split("$", ';') == ["$"];
  }

  // ---------------------------------------------------------------------
  // Reading along a path
  // ---------------------------------------------------------------------

  /** Every key in the tree is clean. */
  predicate CleanKeys(n: Node)
  {
    match n
    case Scalar(_) => true
    case Arr(ms) => forall i :: 0 <= i < |ms| ==> Clean(ms[i].key) && CleanKeys(ms[i].value)
  }

  /** The keys of a path that exists in a clean tree are clean. */
  lemma {:induction false} LocateClean(n: Node, keys: seq<string>)
    requires CleanKeys(n) && Locate(n, keys).Some?
    ensures forall k :: 0 <= k < |keys| ==> Clean(keys[k])
    decreases |keys|
  {
    if |keys| > 0 {
      var i := FindIndex(n.members, keys[0]).value;
      assert Clean(keys[0]) && CleanKeys(Child(n, keys[0]));
      LocateClean(Child(n, keys[0]), keys[1..]);
      assert forall k :: 1 <= k < |keys| ==> keys[k] == keys[1..][k - 1];
    }
  }

  /** Where a path exists, the store's walk from the root reads the node there. */
  lemma {:induction false} LocateGets(n: Node, keys: seq<string>)
    requires Locate(n, keys).Some?
    ensures GetAt(n, keys) == Locate(n, keys).value
    decreases |keys|
  {
    if |keys| > 0 {
      LocateGets(Child(n, keys[0]), keys[1..]);
    }
  }

  lemma {:induction false} ValuesAtEach(n: Node, ps: seq<string>)
    ensures forall j :: 0 <= j < |ps| ==> ValuesAt(n, ps)[j] == GetAt(n, SplitKeys(ps[j]))
  {
    if |ps| > 0 {
      ValuesAtEach(n, ps[..|ps| - 1]);
      assert forall j :: 0 <= j < |ps| - 1 ==> ps[..|ps| - 1][j] == ps[j];
    }
  }

  /** `normalizedFirst` finds paths exactly when a `PATH` query has results, bar the fast path. */
  lemma ResolvedPaths(ev: Evaluator, fuel: nat, data: Node, jsonPath: string, buf: seq<Entry>)
    requires WellFormed(data)
    ensures var res, p := Resolved(ev, fuel, data, jsonPath, buf).0, Answered(ev, fuel, data, jsonPath, PathType, buf).0;
      && (res.Paths? <==> !FastPath(jsonPath) && p.Results?)
      && (res.Paths? ==> res.paths == TextsOf(p.entries))
  {
  }

  /**
   * `get` returns, path for path, the nodes a `VALUE` query returns, except
   * where the match is the root: its canonical path `$` has no brackets, so
   * `get` reads the member `$` of the document instead.
   */
  lemma GetIsValueQuery(ev: Evaluator, fuel: nat, data: Node, jsonPath: string, buf: seq<Entry>)
    requires WellFormed(data) && CleanKeys(data)
    ensures var res, v := Resolved(ev, fuel, data, jsonPath, buf).0, Answered(ev, fuel, data, jsonPath, ValueType, buf).0;
      && (res.Paths? <==> !FastPath(jsonPath) && v.Results?)
      && (res.Paths? ==> Gotten(data, res, false) == Values(ValuesAt(data, res.paths)))
      && (res.Paths? ==> |res.paths| == |v.entries|)
      && (res.Paths? ==> forall j :: 0 <= j < |res.paths| ==>
            Value(ValuesAt(data, res.paths)[j]) ==
              if |PathKeys(QueryMatches(ev, fuel, data, jsonPath, buf)[j].path)| == 0
              then Value(Child(data, "$")) else v.entries[j])
  {
    var res := Resolved(ev, fuel, data, jsonPath, buf).0;
    var p := Answered(ev, fuel, data, jsonPath, PathType, buf).0;
    var v := Answered(ev, fuel, data, jsonPath, ValueType, buf).0;
    var ms := QueryMatches(ev, fuel, data, jsonPath, buf);
    ModesAgree(ev, fuel, data, jsonPath, buf);
    ResolvedPaths(ev, fuel, data, jsonPath, buf);
    if res.Paths? {
      AnswerIsMatches(ev, fuel, data, jsonPath, PathType, buf);
    }
    ReadsAnswer(data, res, p, v, ms);
  }

  /** The value side of `GetIsValueQuery`, for any paths answered alongside values. */
  lemma ReadsAnswer(data: Node, res: Resolution, p: Answer, v: Answer, ms: seq<Match>)
    requires CleanKeys(data)
    requires res.Paths? ==> p.Results? && v.Results? && res.paths == TextsOf(p.entries)
    requires res.Paths? ==> |p.entries| == |ms| && |v.entries| == |ms|
    requires res.Paths? ==> forall j :: 0 <= j < |ms| ==>
      v.entries[j] == Value(ms[j].node) && p.entries[j] == Text(AsPath(ms[j].path)) && Addressed(data, ms[j])
    ensures res.Paths? ==> Gotten(data, res, false) == Values(ValuesAt(data, res.paths))
    ensures res.Paths? ==> |res.paths| == |v.entries|
    ensures res.Paths? ==> forall j :: 0 <= j < |res.paths| ==>
      Value(ValuesAt(data, res.paths)[j]) ==
        if |PathKeys(ms[j].path)| == 0 then Value(Child(data, "$")) else v.entries[j]
  {
    if res.Paths? {
      ValuesAtEach(data, res.paths);
      forall j | 0 <= j < |ms|
        ensures ValuesAt(data, res.paths)[j] ==
          (if |PathKeys(ms[j].path)| == 0 then Child(data, "$") else ms[j].node)
      {
        assert res.paths[j] == AsPath(ms[j].path);
        ReadsMatch(data, ms[j]);
      }
    }
  }

  /** The store's walk along a match's canonical path reads the matched node (the root aside). */
  lemma ReadsMatch(data: Node, m: Match)
    requires CleanKeys(data) && Addressed(data, m)
    ensures GetAt(data, SplitKeys(AsPath(m.path))) == if |PathKeys(m.path)| == 0 then Child(data, "$") else m.node
  {
    var keys := PathKeys(m.path);
    if |keys| == 0 {
      assert AsPath(m.path) == "$";
      RootKeys();
      assert ["$"][1..] == [];
    } else {
      LocateClean(data, keys);
      KeysRoundTrip(m.path);
      LocateGets(data, keys);
    }
  }

  // ---------------------------------------------------------------------
  // Replacing the node at a path
  // ---------------------------------------------------------------------

  /** Neither key list leads to or through the other's node. */
  predicate Apart(a: seq<string>, b: seq<string>)
  {
    !(a <= b) && !(b <= a)
  }

  /** Rewriting a member's value keeps every key where it was. */
  lemma {:induction false} FindIndexUpdate(ms: seq<Member>, i: nat, w: Node, k: string)
    requires i < |ms|
    ensures FindIndex(ms[i := Member(ms[i].key, w)], k) == FindIndex(ms, k)
  {
    var ms' := ms[i := Member(ms[i].key, w)];
    if ms[0].key != k && i > 0 {
      UpdateTail(ms, i, Member(ms[i].key, w));
      FindIndexUpdate(ms[1..], i - 1, w, k);
    } else if ms[0].key != k {
      assert ms'[1..] == ms[1..];
    }
  }

  /** Updating past the head updates the tail. */
  lemma UpdateTail(ms: seq<Member>, i: nat, m: Member)
    requires 0 < i < |ms|
    ensures ms[i := m][0] == ms[0] && ms[i := m][1..] == ms[1..][i - 1 := m]
  {
  }

  /** The member at `k0`'s position takes `w`; every other key reads as before. */
  lemma ChildUpdate(ms: seq<Member>, k0: string, w: Node, k: string)
    requires FindIndex(ms, k0).Some?
    ensures var n' := Arr(ms[FindIndex(ms, k0).value := Member(k0, w)]);
      && (KeyExists(n', k) <==> KeyExists(Arr(ms), k))
      && Child(n', k) == if k == k0 then w else Child(Arr(ms), k)
  {
    var i := FindIndex(ms, k0).value;
    FindIndexUpdate(ms, i, w, k);
    assert ms[i := Member(k0, w)] == ms[i := Member(ms[i].key, w)];
  }

  /** The replaced node reads back. */
  lemma {:induction false} ReplaceReads(n: Node, keys: seq<string>, v: Node)
    requires Locate(n, keys).Some?
    ensures Locate(Replace(n, keys, v), keys) == Some(v)
    decreases |keys|
  {
    if |keys| > 0 {
      var i := FindIndex(n.members, keys[0]).value;
      ReplaceReads(n.members[i].value, keys[1..], v);
      ChildUpdate(n.members, keys[0], Replace(n.members[i].value, keys[1..], v), keys[0]);
    }
  }

  /** A path that does not exist leaves the tree as it is. */
  lemma {:induction false} ReplaceMissing(n: Node, keys: seq<string>, v: Node)
    requires Locate(n, keys).None?
    ensures Replace(n, keys, v) == n
    decreases |keys|
  {
    if KeyExists(n, keys[0]) {
      var i := FindIndex(n.members, keys[0]).value;
      ReplaceMissing(n.members[i].value, keys[1..], v);
      assert n.members[i := Member(keys[0], n.members[i].value)] == n.members;
    }
  }

  /** Paths apart from the replaced one locate what they located before. */
  lemma {:induction false} ReplaceApart(n: Node, keys: seq<string>, other: seq<string>, v: Node)
    requires Apart(keys, other)
    ensures Locate(Replace(n, keys, v), other) == Locate(n, other)
    decreases |keys|
  {
    if KeyExists(n, keys[0]) {
      var i := FindIndex(n.members, keys[0]).value;
      var w := Replace(n.members[i].value, keys[1..], v);
      ChildUpdate(n.members, keys[0], w, other[0]);
      if other[0] == keys[0] {
        assert Apart(keys[1..], other[1..]);
        ReplaceApart(n.members[i].value, keys[1..], other[1..], v);
      }
    }
  }

  /** Below the replaced path, the new node is read. */
  lemma {:induction false} ReplaceBelow(n: Node, keys: seq<string>, tail: seq<string>, v: Node)
    requires Locate(n, keys).Some?
    ensures Locate(Replace(n, keys, v), keys + tail) == Locate(v, tail)
    decreases |keys|
  {
    if |keys| == 0 {
      assert keys + tail == tail;
    } else {
      var i := FindIndex(n.members, keys[0]).value;
      var w := Replace(n.members[i].value, keys[1..], v);
      ChildUpdate(n.members, keys[0], w, keys[0]);
      ReplaceBelow(n.members[i].value, keys[1..], tail, v);
      AppendTail(keys, tail);
    }
  }

  /** The first key of `a + b` and what follows it, for a non-empty `a`. */
  lemma AppendTail(a: seq<string>, b: seq<string>)
    requires |a| > 0
    ensures (a + b)[0] == a[0] && (a + b)[1..] == a[1..] + b
  {
  }

  /** Following `a + b` is following `a`, then `b`. */
  lemma {:induction false} LocateAppend(n: Node, a: seq<string>, b: seq<string>)
    ensures Locate(n, a + b) == if Locate(n, a).Some? then Locate(Locate(n, a).value, b) else None
    decreases |a|
  {
    if |a| == 0 {
      assert a + b == b;
    } else {
      assert (a + b)[0] == a[0] && (a + b)[1..] == a[1..] + b;
      if KeyExists(n, a[0]) {
        LocateAppend(Child(n, a[0]), a[1..], b);
      }
    }
  }

  /** Keys are never changed by a replacement, so a well-formed tree stays well formed. */
  lemma {:induction false} ReplaceWellFormed(n: Node, keys: seq<string>, v: Node)
    requires WellFormed(n) && WellFormed(v)
    ensures WellFormed(Replace(n, keys, v))
    decreases |keys|
  {
    if |keys| > 0 && KeyExists(n, keys[0]) {
      var i := FindIndex(n.members, keys[0]).value;
      ReplaceWellFormed(n.members[i].value, keys[1..], v);
      WellFormedUpdate(n.members, i, Replace(n.members[i].value, keys[1..], v));
    }
  }

  /** Two nodes alike at a path's first key are alike along the path. */
  lemma LocateSameFirst(a: Node, b: Node, tail: seq<string>)
    requires |tail| >= 1
    requires (KeyExists(a, tail[0]) <==> KeyExists(b, tail[0])) && Child(a, tail[0]) == Child(b, tail[0])
    ensures Locate(a, tail) == Locate(b, tail)
  {
  }

  /** Below a located node, a replacement that reads alike along `tail` changes nothing there. */
  lemma ReplaceKeepsBelow(n: Node, keys: seq<string>, w: Node, tail: seq<string>)
    requires Locate(n, keys).Some?
    requires Locate(w, tail) == Locate(GetAt(n, keys), tail)
    ensures Locate(Replace(n, keys, w), keys + tail) == Locate(n, keys + tail)
  {
    ReplaceBelow(n, keys, tail, w);
    LocateAppend(n, keys, tail);
    LocateGets(n, keys);
  }

  // ---------------------------------------------------------------------
  // `set`
  // ---------------------------------------------------------------------

  /** The first `k` replacements of `set`, one key list at a time. */
  ghost function Applied(n: Node, ks: seq<seq<string>>, k: nat, v: Node): Node
    requires k <= |ks|
  {
    if k == 0 then n else Replace(Applied(n, ks, k - 1, v), ks[k - 1], v)
  }

  lemma {:induction false} AppliedIsSetAll(n: Node, ks: seq<seq<string>>, k: nat, v: Node)
    requires k <= |ks|
    ensures Applied(n, ks, k, v) == SetAll(n, ks[..k], v)
  {
    if k > 0 {
      AppliedIsSetAll(n, ks, k - 1, v);
      assert ks[..k][..k - 1] == ks[..k - 1];
    }
  }

  /** After the first `k` replacements, `p` reads what it read before them. */
  ghost predicate Untouched(n: Node, ks: seq<seq<string>>, k: nat, v: Node, p: seq<string>)
    requires k <= |ks|
  {
    Locate(Applied(n, ks, k, v), p) == Locate(n, p)
  }

  /** After the first `k` replacements, `p` reads the value written. */
  ghost predicate ReadsValue(n: Node, ks: seq<seq<string>>, k: nat, v: Node, p: seq<string>)
    requires k <= |ks|
  {
    Locate(Applied(n, ks, k, v), p) == Some(v)
  }

  /** After the first `k` replacements, `p` leads to a node. */
  ghost predicate LocatedAfter(n: Node, ks: seq<seq<string>>, k: nat, v: Node, p: seq<string>)
    requires k <= |ks|
  {
    Locate(Applied(n, ks, k, v), p).Some?
  }

  /** The first `k` replacements leave a path apart from all of them as it was. */
  lemma {:induction false} SetFirstElsewhere(n: Node, ks: seq<seq<string>>, k: nat, v: Node, other: seq<string>)
    requires k <= |ks|
    requires forall i :: 0 <= i < k ==> Apart(ks[i], other)
    ensures Untouched(n, ks, k, v, other)
  {
    if k > 0 {
      SetFirstElsewhere(n, ks, k - 1, v, other);
      UntouchedStep(n, ks, k, v, other);
    }
  }

  lemma UntouchedStep(n: Node, ks: seq<seq<string>>, k: nat, v: Node, p: seq<string>)
    requires 0 < k <= |ks| && Apart(ks[k - 1], p) && Untouched(n, ks, k - 1, v, p)
    ensures Untouched(n, ks, k, v, p)
  {
    ReplaceApart(Applied(n, ks, k - 1, v), ks[k - 1], p, v);
  }

  /** `set` leaves every path apart from all matched paths as it was. */
  lemma SetAllElsewhere(n: Node, ks: seq<seq<string>>, v: Node, other: seq<string>)
    requires forall i :: 0 <= i < |ks| ==> Apart(ks[i], other)
    ensures Locate(SetAll(n, ks, v), other) == Locate(n, other)
  {
    AppliedIsSetAll(n, ks, |ks|, v);
    assert ks[..|ks|] == ks;
    SetFirstElsewhere(n, ks, |ks|, v, other);
  }

  /** Two matched paths are the same location or lie apart (a union may repeat a key). */
  predicate EqualOrApart(a: seq<string>, b: seq<string>)
  {
    a == b || Apart(a, b)
  }

  /** Every matched path leads to a node. */
  predicate AllLocated(n: Node, ks: seq<seq<string>>)
  {
    forall j :: 0 <= j < |ks| ==> Locate(n, ks[j]).Some?
  }

  /** Any two matched paths are the same or lie apart. */
  predicate NoOverlap(ks: seq<seq<string>>)
  {
    forall a, b :: 0 <= a < b < |ks| ==> EqualOrApart(ks[a], ks[b])
  }

  /** After the first `k` replacements, each of their paths reads the value. */
  lemma {:induction false} SetFirstReads(n: Node, ks: seq<seq<string>>, k: nat, v: Node, i: nat)
    requires i < k <= |ks|
    requires AllLocated(n, ks) && NoOverlap(ks)
    ensures ReadsValue(n, ks, k, v, ks[i])
    decreases k, 0
  {
    if i < k - 1 && ks[i] != ks[k - 1] {
      assert EqualOrApart(ks[i], ks[k - 1]);
      SetFirstReads(n, ks, k - 1, v, i);
      ReadsKept(n, ks, k, v, ks[i]);
    } else {
      assert ks[i] == ks[k - 1];
      SetFirstLocates(n, ks, k - 1, v);
      ReadsLast(n, ks, k, v, i);
    }
  }

  /** The first `k` replacements leave the next matched path located. */
  lemma {:induction false} SetFirstLocates(n: Node, ks: seq<seq<string>>, k: nat, v: Node)
    requires k < |ks|
    requires AllLocated(n, ks) && NoOverlap(ks)
    ensures LocatedAfter(n, ks, k, v, ks[k])
    decreases k, 1
  {
    if j :| 0 <= j < k && ks[j] == ks[k] {
      SetFirstReads(n, ks, k, v, j);
    } else {
      forall j | 0 <= j < k ensures Apart(ks[j], ks[k]) {
        assert EqualOrApart(ks[j], ks[k]);
      }
      SetFirstElsewhere(n, ks, k, v, ks[k]);
    }
  }

  /** The last replacement makes its located path read the value. */
  lemma ReadsLast(n: Node, ks: seq<seq<string>>, k: nat, v: Node, i: nat)
    requires i < k <= |ks| && ks[i] == ks[k - 1] && LocatedAfter(n, ks, k - 1, v, ks[k - 1])
    ensures ReadsValue(n, ks, k, v, ks[i])
  {
    ReplaceReads(Applied(n, ks, k - 1, v), ks[k - 1], v);
  }

  /** A replacement apart from a path that read the value leaves it reading the value. */
  lemma ReadsKept(n: Node, ks: seq<seq<string>>, k: nat, v: Node, p: seq<string>)
    requires 0 < k <= |ks| && Apart(ks[k - 1], p) && ReadsValue(n, ks, k - 1, v, p)
    ensures ReadsValue(n, ks, k, v, p)
  {
    ReplaceApart(Applied(n, ks, k - 1, v), ks[k - 1], p, v);
  }

  /**
   * When the matched locations exist and any two are the same or lie apart,
   * `set` leaves the value at every one of them.
   */
  lemma SetAllReads(n: Node, ks: seq<seq<string>>, v: Node)
    requires forall i :: 0 <= i < |ks| ==> Locate(n, ks[i]).Some?
    requires forall i, j :: 0 <= i < j < |ks| ==> EqualOrApart(ks[i], ks[j])
    ensures forall i :: 0 <= i < |ks| ==> Locate(SetAll(n, ks, v), ks[i]) == Some(v)
  {
    AppliedIsSetAll(n, ks, |ks|, v);
    assert ks[..|ks|] == ks;
    forall i | 0 <= i < |ks| ensures Locate(SetAll(n, ks, v), ks[i]) == Some(v) {
      SetFirstReads(n, ks, |ks|, v, i);
    }
  }

  lemma {:induction false} SetAllWellFormed(n: Node, ks: seq<seq<string>>, v: Node)
    requires WellFormed(n) && WellFormed(v)
    ensures WellFormed(SetAll(n, ks, v))
  {
    if |ks| > 0 {
      SetAllWellFormed(n, ks[..|ks| - 1], v);
      ReplaceWellFormed(SetAll(n, ks[..|ks| - 1], v), ks[|ks| - 1], v);
    }
  }

  // ---------------------------------------------------------------------
  // `add`
  // ---------------------------------------------------------------------

  /** The key `add` gives the new member: `name`, or the next free index. */
  function AddedKey(parent: Node, name: string): string
  {
    if name != "" then name else NatToString(NextIndex(if parent.Arr? then parent.members else []))
  }

  /** The next index is a key the array does not have yet. */
  lemma NextIndexFresh(ms: seq<Member>)
    ensures !HasKey(ms, NatToString(NextIndex(ms)))
  {
    NatToStringValue(NextIndex(ms));
  }

  lemma {:induction false} FindIndexSnoc(ms: seq<Member>, m: Member, k: string)
    ensures FindIndex(ms + [m], k) ==
      if HasKey(ms, k) then FindIndex(ms, k) else if m.key == k then Some(|ms|) else None
  {
    if |ms| > 0 {
      assert (ms + [m])[1..] == ms[1..] + [m];
      FindIndexSnoc(ms[1..], m, k);
      assert forall i :: 1 <= i < |ms| ==> ms[i] == ms[1..][i - 1];
      if HasKey(ms[1..], k) {
        var i :| 0 <= i < |ms[1..]| && ms[1..][i].key == k;
        assert ms[i + 1].key == k;
      }
    } else {
      assert ms + [m] == [m];
    }
  }

  /**
   * `add` puts `value` under its key in the parent, made an array first if
   * it was not one, and every other key of the parent reads as before; the
   * parent grows by one member unless a named key was overwritten in place.
   */
  lemma AddedChildren(parent: Node, name: string, v: Node)
    ensures var r, key, ms := Added(parent, name, v), AddedKey(parent, name), if parent.Arr? then parent.members else [];
      && r.Arr?
      && KeyExists(r, key) && Child(r, key) == v
      && (forall k :: k != key ==> (KeyExists(r, k) <==> KeyExists(parent, k)) && Child(r, k) == Child(parent, k))
      && |r.members| == |ms| + (if name != "" && HasKey(ms, name) then 0 else 1)
  {
    var ms := if parent.Arr? then parent.members else [];
    var key := AddedKey(parent, name);
    assert forall k :: Child(Arr(ms), k) == Child(parent, k) && (KeyExists(Arr(ms), k) <==> KeyExists(parent, k));
    if name != "" && HasKey(ms, name) {
      forall k ensures Child(Added(parent, name, v), k) == (if k == key then v else Child(Arr(ms), k))
        && (KeyExists(Added(parent, name, v), k) <==> KeyExists(Arr(ms), k))
      {
        ChildUpdate(ms, name, v, k);
      }
    } else {
      if name == "" { NextIndexFresh(ms); }
      forall k ensures Child(Added(parent, name, v), k) == (if k == key then v else Child(Arr(ms), k))
        && (KeyExists(Added(parent, name, v), k) <==> KeyExists(Arr(ms), k) || k == key)
      {
        FindIndexSnoc(ms, Member(key, v), k);
      }
    }
  }

  /** The new member can be found at the parent's path followed by its key. */
  lemma AddAtPlaces(n: Node, keys: seq<string>, name: string, v: Node)
    requires Locate(n, keys).Some?
    ensures Locate(AddAt(n, keys, name, v), keys + [AddedKey(GetAt(n, keys), name)]) == Some(v)
  {
    var w := Added(GetAt(n, keys), name, v);
    var key := AddedKey(GetAt(n, keys), name);
    ReplaceBelow(n, keys, [key], w);
    AddedChildren(GetAt(n, keys), name, v);
    assert [key][1..] == [];
  }

  /** Below the parent, everything but the new member's key reads as before. */
  lemma AddBelowParent(n: Node, keys: seq<string>, name: string, v: Node, tail: seq<string>)
    requires Locate(n, keys).Some?
    requires |tail| >= 1 && tail[0] != AddedKey(GetAt(n, keys), name)
    ensures Locate(AddAt(n, keys, name, v), keys + tail) == Locate(n, keys + tail)
  {
    var p := GetAt(n, keys);
    var w := Added(p, name, v);
    AddedChildren(p, name, v);
    LocateSameFirst(w, p, tail);
    ReplaceKeepsBelow(n, keys, w, tail);
  }

  /**
   * `add` changes nothing that is neither the parent's path, one of its
   * ancestors, nor below the new member.
   */
  lemma AddAtElsewhere(n: Node, keys: seq<string>, name: string, v: Node, other: seq<string>)
    requires !(other <= keys) && !(keys + [AddedKey(GetAt(n, keys), name)] <= other)
    ensures Locate(AddAt(n, keys, name, v), other) == Locate(n, other)
  {
    var w := Added(GetAt(n, keys), name, v);
    if Locate(n, keys).None? {
      ReplaceMissing(n, keys, w);
    } else if Apart(keys, other) {
      ReplaceApart(n, keys, other, w);
    } else {
      var tail := other[|keys|..];
      assert other == keys + tail;
      AddBelowParent(n, keys, name, v, tail);
    }
  }

  /** Appending a member under a new key keeps an array well formed. */
  lemma WellFormedSnoc(ms: seq<Member>, k: string, v: Node)
    requires WellFormed(Arr(ms)) && WellFormed(v) && ';' !in k && !HasKey(ms, k)
    ensures WellFormed(Arr(ms + [Member(k, v)]))
  {
    var ms' := ms + [Member(k, v)];
    assert forall j :: 0 <= j < |ms| ==> ms'[j] == ms[j];
    assert forall j :: 0 <= j < |ms| ==> ms[j].key != k;
  }

  /** Giving a member a well-formed value keeps an array well formed. */
  lemma WellFormedUpdate(ms: seq<Member>, i: nat, w: Node)
    requires WellFormed(Arr(ms)) && WellFormed(w) && i < |ms|
    ensures WellFormed(Arr(ms[i := Member(ms[i].key, w)]))
  {
    var ms' := ms[i := Member(ms[i].key, w)];
    assert forall j :: 0 <= j < |ms| ==> ms'[j].key == ms[j].key;
  }

  lemma AddedWellFormed(parent: Node, name: string, v: Node)
    requires WellFormed(parent) && WellFormed(v) && ';' !in name
    ensures WellFormed(Added(parent, name, v))
  {
    var ms := if parent.Arr? then parent.members else [];
    var key := AddedKey(parent, name);
    if name != "" && HasKey(ms, name) {
      var i := FindIndex(ms, name).value;
      WellFormedUpdate(ms, i, v);
      assert ms[i := Member(ms[i].key, v)] == ms[i := Member(name, v)];
    } else {
      if name == "" {
        NextIndexFresh(ms);
        assert ';' !in key by {
          assert AllDigits(key);
        }
      }
      WellFormedSnoc(ms, key, v);
    }
  }

  /** A node reached in a well-formed tree is well formed. */
  lemma {:induction false} GetAtWellFormed(n: Node, keys: seq<string>)
    requires WellFormed(n)
    ensures WellFormed(GetAt(n, keys))
    decreases |keys|
  {
    if |keys| > 0 {
      GetAtWellFormed(Child(n, keys[0]), keys[1..]);
    }
  }

  lemma {:induction false} AddAllWellFormed(n: Node, ks: seq<seq<string>>, name: string, v: Node)
    requires WellFormed(n) && WellFormed(v) && ';' !in name
    ensures WellFormed(AddAll(n, ks, name, v))
  {
    if |ks| > 0 {
      var m := AddAll(n, ks[..|ks| - 1], name, v);
      var keys := ks[|ks| - 1];
      AddAllWellFormed(n, ks[..|ks| - 1], name, v);
      GetAtWellFormed(m, keys);
      AddedWellFormed(GetAt(m, keys), name, v);
      ReplaceWellFormed(m, keys, Added(GetAt(m, keys), name, v));
    }
  }

  // ---------------------------------------------------------------------
  // `remove`
  // ---------------------------------------------------------------------

  /** Reading the first member, or past it. */
  lemma ChildCons(m: Member, rest: seq<Member>, k: string)
    ensures HasKey([m] + rest, k) <==> m.key == k || HasKey(rest, k)
    ensures Child(Arr([m] + rest), k) == if m.key == k then m.value else Child(Arr(rest), k)
  {
    var ms := [m] + rest;
    assert ms[1..] == rest;
    assert forall i :: 1 <= i < |ms| ==> ms[i] == rest[i - 1];
    if HasKey(rest, k) {
      var i :| 0 <= i < |rest| && rest[i].key == k;
      assert ms[i + 1].key == k;
    }
    if m.key == k {
      assert ms[0].key == k;
    }
    if HasKey(ms, k) && m.key != k {
      var i :| 0 <= i < |ms| && ms[i].key == k;
      assert rest[i - 1].key == k;
    }
  }

  /** Well-formedness of an array, one member at a time. */
  lemma WellFormedCons(m: Member, rest: seq<Member>)
    ensures WellFormed(Arr([m] + rest)) <==>
      WellFormed(Arr(rest)) && ';' !in m.key && WellFormed(m.value) && !HasKey(rest, m.key)
  {
    var ms := [m] + rest;
    assert ms[0] == m;
    assert forall i :: 1 <= i < |ms| ==> ms[i] == rest[i - 1];
    if WellFormed(Arr(ms)) {
      assert forall i :: 0 <= i < |rest| ==> ';' !in rest[i].key && WellFormed(rest[i].value) by {
        forall i | 0 <= i < |rest| ensures ';' !in rest[i].key && WellFormed(rest[i].value) {
          assert rest[i] == ms[i + 1];
        }
      }
      assert DistinctKeys(rest) by {
        forall i, j | 0 <= i < j < |rest| ensures rest[i].key != rest[j].key {
          assert ms[i + 1].key != ms[j + 1].key;
        }
      }
      assert !HasKey(rest, m.key) by {
        forall i | 0 <= i < |rest| ensures rest[i].key != m.key {
          assert ms[i + 1].key != ms[0].key;
        }
      }
      assert WellFormed(Arr(rest));
    }
    if WellFormed(Arr(rest)) && ';' !in m.key && WellFormed(m.value) && !HasKey(rest, m.key) {
      assert forall i :: 0 <= i < |ms| ==> ';' !in ms[i].key && WellFormed(ms[i].value) by {
        forall i | 0 <= i < |ms| ensures ';' !in ms[i].key && WellFormed(ms[i].value) {
          if i > 0 { assert ms[i] == rest[i - 1]; }
        }
      }
      assert DistinctKeys(ms) by {
        forall i, j | 0 <= i < j < |ms| ensures ms[i].key != ms[j].key {
          if i == 0 {
            assert rest[j - 1].key != m.key;
          } else {
            assert rest[i - 1].key != rest[j - 1].key;
          }
        }
      }
      assert WellFormed(Arr(ms));
    }
  }

  lemma {:induction false} WithoutChildren(ms: seq<Member>, k: string)
    ensures !HasKey(Without(ms, k), k)
    ensures forall k' :: k' != k ==>
      (HasKey(Without(ms, k), k') <==> HasKey(ms, k')) && Child(Arr(Without(ms, k)), k') == Child(Arr(ms), k')
  {
    if |ms| > 0 {
      WithoutChildren(ms[1..], k);
      var r := Without(ms[1..], k);
      assert ms == [ms[0]] + ms[1..];
      forall k' ensures HasKey(ms, k') <==> ms[0].key == k' || HasKey(ms[1..], k')
        ensures Child(Arr(ms), k') == if ms[0].key == k' then ms[0].value else Child(Arr(ms[1..]), k')
      {
        ChildCons(ms[0], ms[1..], k');
      }
      if ms[0].key != k {
        forall k' ensures HasKey([ms[0]] + r, k') <==> ms[0].key == k' || HasKey(r, k')
          ensures Child(Arr([ms[0]] + r), k') == if ms[0].key == k' then ms[0].value else Child(Arr(r), k')
        {
          ChildCons(ms[0], r, k');
        }
      }
    }
  }

  /**
   * `unset` takes exactly the key away: it is missing afterwards, and every
   * other key reads as before.
   */
  lemma UnsetChildren(parent: Node, k: string)
    ensures !KeyExists(Unset(parent, k), k)
    ensures forall k' :: k' != k ==>
      (KeyExists(Unset(parent, k), k') <==> KeyExists(parent, k')) && Child(Unset(parent, k), k') == Child(parent, k')
  {
    if parent.Arr? {
      WithoutChildren(parent.members, k);
    }
  }

  /** After `remove`, the path is gone if its parent was there. */
  lemma RemoveAtRemoves(n: Node, keys: seq<string>)
    requires |keys| >= 1 && Locate(n, keys[..|keys| - 1]).Some?
    ensures Locate(RemoveAt(n, keys), keys).None?
  {
    var up, last := keys[..|keys| - 1], keys[|keys| - 1];
    var w := Unset(GetAt(n, up), last);
    ReplaceBelow(n, up, [last], w);
    UnsetChildren(GetAt(n, up), last);
    assert up + [last] == keys;
  }

  /** `remove` changes nothing that is neither the removed path, an ancestor of it, nor below it. */
  lemma RemoveAtElsewhere(n: Node, keys: seq<string>, other: seq<string>)
    requires |keys| >= 1 && Apart(keys, other)
    ensures Locate(RemoveAt(n, keys), other) == Locate(n, other)
  {
    var up, last := keys[..|keys| - 1], keys[|keys| - 1];
    var p := GetAt(n, up);
    var w := Unset(p, last);
    assert up + [last] == keys;
    if Locate(n, up).None? {
      ReplaceMissing(n, up, w);
    } else if Apart(up, other) {
      ReplaceApart(n, up, other, w);
    } else {
      RemoveBeside(n, up, last, other);
    }
  }

  /** Removing a member leaves a path through one of its siblings as it was. */
  lemma RemoveBeside(n: Node, up: seq<string>, last: string, other: seq<string>)
    requires Locate(n, up).Some? && up <= other && Apart(up + [last], other)
    ensures Locate(Replace(n, up, Unset(GetAt(n, up), last)), other) == Locate(n, other)
  {
    var p := GetAt(n, up);
    var w := Unset(p, last);
    var tail := other[|up|..];
    assert other == up + tail;
    assert |tail| >= 1 && tail[0] != last;
    UnsetChildren(p, last);
    LocateSameFirst(w, p, tail);
    ReplaceKeepsBelow(n, up, w, tail);
  }

  /** Paths apart from every removed one locate what they located before. */
  lemma {:induction false} RemoveAllElsewhere(n: Node, ks: seq<seq<string>>, other: seq<string>)
    requires forall i :: 0 <= i < |ks| ==> |ks[i]| >= 1
    requires forall i :: 0 <= i < |ks| ==> Apart(ks[i], other)
    ensures Locate(RemoveAll(n, ks), other) == Locate(n, other)
  {
    if |ks| > 0 {
      var init := ks[..|ks| - 1];
      assert forall i :: 0 <= i < |init| ==> init[i] == ks[i];
      RemoveAllElsewhere(n, init, other);
      RemoveAtElsewhere(RemoveAll(n, init), ks[|ks| - 1], other);
    }
  }

  lemma {:induction false} WithoutWellFormed(ms: seq<Member>, k: string)
    requires WellFormed(Arr(ms))
    ensures WellFormed(Arr(Without(ms, k)))
  {
    if |ms| > 0 {
      assert ms == [ms[0]] + ms[1..];
      WellFormedCons(ms[0], ms[1..]);
      WithoutWellFormed(ms[1..], k);
      if ms[0].key != k {
        WithoutChildren(ms[1..], k);
        WellFormedCons(ms[0], Without(ms[1..], k));
      }
    }
  }

  lemma {:induction false} RemoveAllWellFormed(n: Node, ks: seq<seq<string>>)
    requires forall i :: 0 <= i < |ks| ==> |ks[i]| >= 1
    requires WellFormed(n)
    ensures WellFormed(RemoveAll(n, ks))
  {
    if |ks| > 0 {
      var m := RemoveAll(n, ks[..|ks| - 1]);
      var keys := ks[|ks| - 1];
      var up := keys[..|keys| - 1];
      RemoveAllWellFormed(n, ks[..|ks| - 1]);
      GetAtWellFormed(m, up);
      if GetAt(m, up).Arr? {
        WithoutWellFormed(GetAt(m, up).members, keys[|keys| - 1]);
      }
      ReplaceWellFormed(m, up, Unset(GetAt(m, up), keys[|keys| - 1]));
    }
  }

  // ---------------------------------------------------------------------
  // `unique`
  // ---------------------------------------------------------------------

  /** Deduplication keeps no two alike values. */
  lemma {:induction false} UniqueDistinct(composite: bool, values: seq<Node>)
    ensures forall a, b :: 0 <= a < b < |Unique(composite, values)| ==>
      !Same(composite, Unique(composite, values)[a], Unique(composite, values)[b])
  {
    if |values| > 0 {
      var init := values[..|values| - 1];
      var last := values[|values| - 1];
      UniqueDistinct(composite, init);
      var kept := Unique(composite, init);
      if !Seen(composite, kept, last) {
        var r := kept + [last];
        assert Unique(composite, values) == r;
        forall a, b | 0 <= a < b < |r| ensures !Same(composite, r[a], r[b]) {
          if b == |kept| {
            assert r[a] == kept[a] && r[b] == last;
            assert !Same(composite, kept[a], last);
          } else {
            assert r[a] == kept[a] && r[b] == kept[b];
          }
        }
      } else {
        assert Unique(composite, values) == kept;
      }
    }
  }

  /** Every value is alike one that is kept. */
  lemma {:induction false} UniqueCovers(composite: bool, values: seq<Node>)
    ensures forall i :: 0 <= i < |values| ==> Seen(composite, Unique(composite, values), values[i])
  {
    if |values| > 0 {
      var init := values[..|values| - 1];
      var last := values[|values| - 1];
      UniqueCovers(composite, init);
      var kept := Unique(composite, init);
      var r := Unique(composite, values);
      UniqueSeesLast(composite, values);
      forall i | 0 <= i < |values| ensures Seen(composite, r, values[i]) {
        if i < |init| {
          assert values[i] == init[i];
          SeenInPrefix(composite, kept, r, init[i]);
        }
      }
    }
  }

  /** The last value is alike one that is kept, and what was kept before stays in front. */
  lemma UniqueSeesLast(composite: bool, values: seq<Node>)
    requires |values| > 0
    ensures Unique(composite, values[..|values| - 1]) <= Unique(composite, values)
    ensures Seen(composite, Unique(composite, values), values[|values| - 1])
  {
    var kept := Unique(composite, values[..|values| - 1]);
    var last := values[|values| - 1];
    if Seen(composite, kept, last) {
      var j :| 0 <= j < |kept| && Same(composite, kept[j], last);
    } else {
      assert (kept + [last])[|kept|] == last;
    }
  }

  /** A value alike one of `a` is alike one of any extension of `a`. */
  lemma SeenInPrefix(composite: bool, a: seq<Node>, b: seq<Node>, x: Node)
    requires a <= b && Seen(composite, a, x)
    ensures Seen(composite, b, x)
  {
    var j :| 0 <= j < |a| && Same(composite, a[j], x);
    assert b[j] == a[j];
  }

  /** The positions of `values` that `Unique` keeps, in order. */
  function KeptIndices(composite: bool, values: seq<Node>): seq<nat>
  {
    if |values| == 0 then []
    else
      var init := values[..|values| - 1];
      var kept := KeptIndices(composite, init);
      if Seen(composite, Unique(composite, init), values[|values| - 1]) then kept else kept + [|values| - 1]
  }

  /** No value before position `i` is alike the one at `i`. */
  predicate FirstOfClass(composite: bool, values: seq<Node>, i: nat)
    requires i < |values|
  {
    forall k :: 0 <= k < i ==> !Same(composite, values[k], values[i])
  }

  /**
   * Deduplication keeps the first value of each class, in order: the kept
   * values sit at strictly increasing positions of `values`, and a position
   * is kept exactly when no earlier value is alike it.
   */
  lemma UniqueKeepsFirst(composite: bool, values: seq<Node>)
    ensures var r, ks := Unique(composite, values), KeptIndices(composite, values);
      && (forall j :: 0 <= j < |r| ==> r[j] in values)
      && (|values| > 0 ==> |r| > 0 && r[0] == values[0])
      && |ks| == |r|
      && (forall j :: 0 <= j < |ks| ==> ks[j] < |values| && r[j] == values[ks[j]])
      && (forall a, b :: 0 <= a < b < |ks| ==> ks[a] < ks[b])
      && (forall i :: 0 <= i < |values| ==> (i in ks <==> FirstOfClass(composite, values, i)))
  {
    KeptPositions(composite, values);
    KeptExactly(composite, values);
    var r, ks := Unique(composite, values), KeptIndices(composite, values);
    if |values| > 0 {
      assert FirstOfClass(composite, values, 0);
      assert 0 in ks;
    }
  }

  /** `r` is `values` read at the strictly increasing positions `ks`. */
  predicate Positions(r: seq<Node>, ks: seq<nat>, values: seq<Node>)
  {
    && |ks| == |r|
    && (forall j :: 0 <= j < |ks| ==> ks[j] < |values| && r[j] == values[ks[j]])
    && (forall a, b :: 0 <= a < b < |ks| ==> ks[a] < ks[b])
  }

  /** The kept values are the values at the kept positions, which increase. */
  lemma {:induction false} KeptPositions(composite: bool, values: seq<Node>)
    ensures Positions(Unique(composite, values), KeptIndices(composite, values), values)
  {
    if |values| > 0 {
      var n := |values| - 1;
      var init := values[..n];
      KeptPositions(composite, init);
      var r0, ks0 := Unique(composite, init), KeptIndices(composite, init);
      PositionsGrow(r0, ks0, init, values);
      if !Seen(composite, r0, values[n]) {
        PositionsAppend(r0, ks0, values, n);
      }
    }
  }

  lemma PositionsGrow(r: seq<Node>, ks: seq<nat>, init: seq<Node>, values: seq<Node>)
    requires init <= values && Positions(r, ks, init)
    ensures Positions(r, ks, values) && forall j :: 0 <= j < |ks| ==> ks[j] < |init|
  {
  }

  lemma PositionsAppend(r: seq<Node>, ks: seq<nat>, values: seq<Node>, n: nat)
    requires Positions(r, ks, values) && n < |values|
    requires forall j :: 0 <= j < |ks| ==> ks[j] < n
    ensures Positions(r + [values[n]], ks + [n], values)
  {
    var r', ks' := r + [values[n]], ks + [n];
    assert forall j :: 0 <= j < |ks| ==> ks'[j] == ks[j] && r'[j] == r[j];
  }

  /** A position is kept exactly when it holds the first value of its class. */
  lemma {:induction false} KeptExactly(composite: bool, values: seq<Node>)
    ensures forall i :: 0 <= i < |values| ==>
      (i in KeptIndices(composite, values) <==> FirstOfClass(composite, values, i))
  {
    if |values| > 0 {
      var n := |values| - 1;
      var init := values[..n];
      KeptExactly(composite, init);
      var ks0, ks := KeptIndices(composite, init), KeptIndices(composite, values);
      assert ks == ks0 || ks == ks0 + [n];
      forall i | 0 <= i < n
        ensures i in ks <==> FirstOfClass(composite, values, i)
      {
        FirstOfClassPrefix(composite, values, i);
        assert i in ks <==> i in ks0;
      }
      KeptLast(composite, values);
    }
  }

  lemma FirstOfClassPrefix(composite: bool, values: seq<Node>, i: nat)
    requires i < |values| - 1
    ensures FirstOfClass(composite, values, i) == FirstOfClass(composite, values[..|values| - 1], i)
  {
    assert forall k :: 0 <= k <= i ==> values[k] == values[..|values| - 1][k];
  }

  /** The last position is kept exactly when no earlier value is alike it. */
  lemma KeptLast(composite: bool, values: seq<Node>)
    requires |values| > 0
    ensures |values| - 1 in KeptIndices(composite, values) <==> FirstOfClass(composite, values, |values| - 1)
  {
    var n := |values| - 1;
    var init := values[..n];
    KeptPositions(composite, init);
    var r0, ks0 := Unique(composite, init), KeptIndices(composite, init);
    assert n !in ks0;
    if Seen(composite, r0, values[n]) {
      LastSeen(composite, values, r0, ks0);
    } else {
      LastUnseen(composite, values, r0);
      assert KeptIndices(composite, values) == ks0 + [n];
    }
  }

  /** A last value alike a kept one is alike the earlier value kept there. */
  lemma LastSeen(composite: bool, values: seq<Node>, r0: seq<Node>, ks0: seq<nat>)
    requires |values| > 0 && Positions(r0, ks0, values[..|values| - 1])
    requires Seen(composite, r0, values[|values| - 1])
    ensures !FirstOfClass(composite, values, |values| - 1)
  {
    var n := |values| - 1;
    var j :| 0 <= j < |r0| && Same(composite, r0[j], values[n]);
    assert values[ks0[j]] == r0[j];
  }

  /** A last value alike no kept one is alike no earlier value. */
  lemma LastUnseen(composite: bool, values: seq<Node>, r0: seq<Node>)
    requires |values| > 0 && r0 == Unique(composite, values[..|values| - 1])
    requires !Seen(composite, r0, values[|values| - 1])
    ensures FirstOfClass(composite, values, |values| - 1)
  {
    var n := |values| - 1;
    var init := values[..n];
    UniqueCovers(composite, init);
    forall k | 0 <= k < n ensures !Same(composite, values[k], values[n]) {
      assert values[k] == init[k];
      var j :| 0 <= j < |r0| && Same(composite, r0[j], init[k]);
      if Same(composite, values[k], values[n]) {
        SameTrans(composite, r0[j], init[k], values[n]);
      }
    }
  }

  lemma SameTrans(composite: bool, a: Node, b: Node, c: Node)
    requires Same(composite, a, b) && Same(composite, b, c)
    ensures Same(composite, a, c)
  {
  }
}

/**
 * Facts about the normalizer's passes one at a time: text a rule or a
 * pattern cannot start on passes through, a parked placeholder is put back
 * as the text that was parked, and the dot hack rewrites filter text span
 * by span. Whole paths are in `PathNormalization`.
 */
module NormalizerProperties {
  import opened Prelude
  import opened Document
  import opened Normalizer

  // ---------------------------------------------------------------------
  // Characters a rule never starts a match on
  // ---------------------------------------------------------------------

  predicate Inert(r: Rule, c: char)
  {
    match r
    case Separators => c != '\'' && c != '.' && c != '['
    case Doubled => c != ';'
    case Noise => c != ';' && c != '\'' && c != ']'
  }

  lemma {:induction false} InertPrefix(r: Rule, k: string, rest: string)
    requires forall i :: 0 <= i < |k| ==> Inert(r, k[i])
    ensures ReplaceAll(r, k + rest) == k + ReplaceAll(r, rest)
    decreases |k|
  {
    if |k| > 0 {
      var s := k + rest;
      assert s[0] == k[0];
      assert RuleLength(r, s) == 0;
      assert s[1..] == k[1..] + rest;
      InertPrefix(r, k[1..], rest);
      assert ReplaceAll(r, s) == [s[0]] + ReplaceAll(r, s[1..]);
      assert k == [k[0]] + k[1..];
    } else {
      assert k + rest == rest;
    }
  }

  /** Parking only appends: the buffer it starts with is a prefix of the one it returns. */
  lemma {:induction false} ParkingAppends(p: ParkPattern, s: string, buf: seq<Entry>)
    ensures |ParkAll(p, s, buf).1| >= |buf| && ParkAll(p, s, buf).1[..|buf|] == buf
    decreases |s|
  {
    if |s| > 0 {
      match MatchPark(p, s)
      case Some(c) =>
        var buf' := buf + [Text(DotHack(c.group))];
        ParkingAppends(p, s[c.end..], buf');
        var r := ParkAll(p, s[c.end..], buf').1;
        assert r[..|buf|] == r[..|buf'|][..|buf|];
      case None =>
        ParkingAppends(p, s[1..], buf);
    }
  }

  // ---------------------------------------------------------------------
  // Pass one as written against pass one as intended
  // ---------------------------------------------------------------------

  /** Some match of the pattern starts in `s`: `preg_replace_callback` calls back. */
  predicate CallsBack(p: ParkPattern, s: string)
  {
    exists i :: 0 <= i < |s| && MatchPark(p, s[i..]).Some?
  }

  /** The scan as written raises exactly when the pattern matches somewhere in the subject. */
  lemma {:induction false} ParkScanRaises(p: ParkPattern, s: string)
    ensures ParkScan(p, s) == if CallsBack(p, s) then None else Some(s)
    decreases |s|
  {
    if |s| > 0 {
      assert s[0..] == s;
      if MatchPark(p, s).None? {
        ParkScanRaises(p, s[1..]);
        if CallsBack(p, s[1..]) {
          var i :| 0 <= i < |s[1..]| && MatchPark(p, s[1..][i..]).Some?;
          assert s[1..][i..] == s[i + 1..];
        }
        if CallsBack(p, s) {
          var i :| 0 <= i < |s| && MatchPark(p, s[i..]).Some?;
          assert s[1..][i - 1..] == s[i..];
        }
      }
    }
  }

  /**
   * Where the scan as written comes through, the pass as intended parks
   * nothing and returns the subject; where it raises, the pass as intended
   * pushes at least one capture.
   */
  lemma {:induction false} ParkScanAgrees(p: ParkPattern, s: string, buf: seq<Entry>)
    ensures ParkScan(p, s).Some? ==> ParkAll(p, s, buf) == (s, buf)
    ensures ParkScan(p, s).None? ==> |ParkAll(p, s, buf).1| > |buf|
    decreases |s|
  {
    if |s| > 0 {
      match MatchPark(p, s)
      case Some(c) =>
        ParkingAppends(p, s[c.end..], buf + [Text(DotHack(c.group))]);
      case None =>
        ParkScanAgrees(p, s[1..], buf);
        assert [s[0]] + s[1..] == s;
    }
  }

  /**
   * `normalize` as written raises exactly when `normalize` as intended
   * would park a capture; otherwise the two give the same tokens.
   */
  lemma NormalizeAgrees(expression: string, buf: seq<Entry>)
    ensures var (s1, b1) := ParkAll(FilterPattern, expression, buf);
      NormalizeAsWritten(expression, buf).None? <==> |ParkAll(QuotedKeyPattern, s1, b1).1| > |buf|
    ensures NormalizeAsWritten(expression, buf).Some? ==>
      NormalizeAsWritten(expression, buf) == Some(Normalize(expression, buf))
  {
    var (s1, b1) := ParkAll(FilterPattern, expression, buf);
    ParkScanAgrees(FilterPattern, expression, buf);
    ParkScanAgrees(QuotedKeyPattern, s1, b1);
    ParkingAppends(QuotedKeyPattern, s1, b1);
  }

  lemma {:induction false} ParkPassive(p: ParkPattern, s: string, buf: seq<Entry>)
    requires forall i :: 0 <= i < |s| ==> s[i] != '[' && s[i] != '\''
    ensures ParkAll(p, s, buf) == (s, buf)
    decreases |s|
  {
    if |s| > 0 {
      assert MatchPark(p, s).None?;
      ParkPassive(p, s[1..], buf);
      assert s == [s[0]] + s[1..];
    }
  }

  lemma {:induction false} NoisePassive(s: string)
    requires forall i :: 0 <= i < |s| ==> s[i] != '\'' && s[i] != ']'
    requires |s| > 0 ==> s[|s| - 1] != ';'
    ensures ReplaceAll(Noise, s) == s
    decreases |s|
  {
    if |s| > 0 {
      assert RuleLength(Noise, s) == 0;
      NoisePassive(s[1..]);
      assert s == [s[0]] + s[1..];
    }
  }

  lemma {:induction false} RestorePassive(s: string, buf: seq<Entry>)
    requires '#' !in s
    ensures RestoreAll(s, buf) == s
    decreases |s|
  {
    if |s| > 0 {
      RestorePassive(s[1..], buf);
      assert s == [s[0]] + s[1..];
    }
  }

  // ---------------------------------------------------------------------
  // Placeholders
  // ---------------------------------------------------------------------

  lemma {:induction false} DigitRunOfNumeral(n: string, rest: string)
    requires AllDigits(n)
    requires |rest| == 0 || !IsDigit(rest[0])
    ensures DigitRun(n + rest) == n
    decreases |n|
  {
    if |n| > 0 {
      assert (n + rest)[1..] == n[1..] + rest;
      DigitRunOfNumeral(n[1..], rest);
    } else {
      assert n + rest == rest;
    }
  }

  /**
   * `restoreFilters` undoes `tempFilters`: the placeholder `#k` is replaced by
   * exactly the text parked at index `k`, and restoring continues after it.
   */
  lemma PlaceholderRestores(k: nat, buf: seq<Entry>, rest: string)
    requires k < |buf| && buf[k].Text?
    requires |rest| == 0 || !IsDigit(rest[0])
    ensures RestoreAll("#" + NatToString(k) + rest, buf) == buf[k].text + RestoreAll(rest, buf)
  {
    var n := NatToString(k);
    var s := "#" + n + rest;
    NatToStringValue(k);
    assert RestoreFilter(n, buf) == buf[k].text;
    HashParts(n, rest);
    DigitRunOfNumeral(n, rest);
    RestoreHash(s, buf);
  }

  lemma HashParts(n: string, rest: string)
    ensures var s := "#" + n + rest; s[0] == '#' && s[1..] == n + rest && s[1 + |n|..] == rest
  {
  }

  /** One unfolding of `restoreFilters` at a `#` followed by digits. */
  lemma RestoreHash(s: string, buf: seq<Entry>)
    requires |s| > 0 && s[0] == '#' && |DigitRun(s[1..])| > 0
    ensures RestoreAll(s, buf) == RestoreFilter(DigitRun(s[1..]), buf) + RestoreAll(s[1 + |DigitRun(s[1..])|..], buf)
  {
  }

  // ---------------------------------------------------------------------
  // The dot hack of `tempFilters`
  // ---------------------------------------------------------------------

  /** A character missing from `s` is missing from every piece of its split. */
  lemma {:induction false} SplitKeepsOut(s: string, c: char, d: char)
    requires d !in s
    ensures forall i :: 0 <= i < |Split(s, c)| ==> d !in Split(s, c)[i]
    decreases |s|
  {
    match IndexOf(s, c)
    case None =>
    case Some(i) =>
      assert d !in s[i + 1..];
      SplitKeepsOut(s[i + 1..], c, d);
      assert Split(s, c) == [s[..i]] + Split(s[i + 1..], c);
  }

  /** Bracketing a part adds only `[` and `]`. */
  lemma BracketPartKeepsOut(part: string, d: char)
    requires d !in part && d != '[' && d != ']'
    ensures d !in BracketPart(part)
  {
    match KeywordPosition(part)
    case Some(pos) =>
      assert d !in part[..pos] && d !in part[pos..];
    case None =>
  }

  lemma {:induction false} BracketPartsKeepOut(parts: seq<string>, d: char)
    requires forall i :: 0 <= i < |parts| ==> d !in parts[i]
    requires d != '[' && d != ']'
    ensures d !in BracketParts(parts)
    decreases |parts|
  {
    if |parts| > 0 {
      BracketPartKeepsOut(parts[0], d);
      BracketPartsKeepOut(parts[1..], d);
    }
  }

  /** Rewriting a span adds no character other than `[` and `]`. */
  lemma RewriteSpanKeepsOut(e: string, d: char)
    requires d !in e && d != '[' && d != ']'
    ensures d !in RewriteSpan(e)
  {
    var parts := Split(e, '.');
    SplitKeepsOut(e, '.', d);
    BracketPartsKeepOut(parts[1..], d);
  }

  /**
   * The text `tempFilters` parks splits on `'` into exactly the rewritten
   * spans of the capture: the dot hack adds no quote, so the quoted spans
   * (odd, or after a span starting with a backslash) come back unchanged
   * and the others come back as `RewriteSpan` of the original.
   */
  lemma DotHackSpans(f: string)
    ensures Split(DotHack(f), '\'') == RewriteAll(Split(f, '\''))
    ensures var spans, out := Split(f, '\''), Split(DotHack(f), '\'');
      |out| == |spans| &&
      forall i :: 0 <= i < |spans| ==>
        out[i] == if Rewritten(spans, i) then RewriteSpan(spans[i]) else spans[i]
  {
    var spans := Split(f, '\'');
    var r := RewriteAll(spans);
    forall i | 0 <= i < |r| ensures '\'' !in r[i] {
      if Rewritten(spans, i) {
        RewriteSpanKeepsOut(spans[i], '\'');
      }
    }
    SplitJoin(r, '\'');
  }

  /** A span without `.` is left as it is. */
  lemma RewriteSpanWithoutDot(e: string)
    requires '.' !in e
    ensures RewriteSpan(e) == e
  {
    assert IndexOf(e, '.').None?;
  }

  /** A filter without `.` is parked unchanged. */
  lemma DotHackWithoutDot(f: string)
    requires '.' !in f
    ensures DotHack(f) == f
  {
    var spans := Split(f, '\'');
    SplitKeepsOut(f, '\'', '.');
    forall i | 0 <= i < |spans| ensures RewriteAll(spans)[i] == spans[i] {
      RewriteSpanWithoutDot(spans[i]);
    }
    assert RewriteAll(spans) == spans;
    JoinSplit(f, '\'');
  }

  /** `@.price` in unquoted text becomes `@[price]`, the dot hack's purpose. */
  lemma DotHackMember(k: string)
    requires |k| > 0 && '.' !in k && '\'' !in k
    requires forall i :: 0 <= i < |k| ==> !IsKeyword(k[i])
    ensures DotHack("@." + k) == "@[" + k + "]"
  {
    var f := "@." + k;
    assert IndexOf(f, '\'') == None by {
      assert forall i :: 0 <= i < |f| ==> f[i] != '\'';
    }
    assert Split(f, '\'') == [f];
    assert IndexOf(f, '.') == Some(1);
    assert f[2..] == k && f[..1] == "@";
    assert IndexOf(k, '.') == None;
    assert Split(f, '.') == ["@", k];
    assert FirstKeyword(k) == None;
    assert BracketParts([k]) == "[" + k + "]" by {
      assert BracketPart(k) == "[" + k + "]";
      assert [k][1..] == [];
    }
    assert RewriteSpan(f) == "@[" + k + "]" by {
      assert ["@", k][1..] == [k];
    }
    assert Rewritten([f], 0);
    assert RewriteAll([f]) == [RewriteSpan(f)];
  }
}

/**
 * String helpers with the meaning PHP gives them: `explode`/`implode` on a
 * one-character separator, decimal rendering of integers, `(int)` casts of
 * the digit strings the path grammar lets through, and PHP's `empty()` on
 * strings.
 */
module Prelude {

  datatype Option<T> = None | Some(value: T)

  /** Index of the first occurrence of `c` in `s`. */
  function IndexOf(s: string, c: char): (r: Option<nat>)
    ensures r.Some? ==> r.value < |s| && s[r.value] == c && c !in s[..r.value]
    ensures r.None? ==> c !in s
  {
    if |s| == 0 then None
    else if s[0] == c then Some(0)
    else match IndexOf(s[1..], c)
      case None => None
      case Some(i) => Some(i + 1)
  }

  /** PHP `explode(c, s)`: the pieces between occurrences of `c`; never empty. */
  function Split(s: string, c: char): (r: seq<string>)
    ensures |r| >= 1
    ensures forall i :: 0 <= i < |r| ==> c !in r[i]
    decreases |s|
  {
    match IndexOf(s, c)
    case None => [s]
    case Some(i) => [s[..i]] + Split(s[i + 1..], c)
  }

  /** PHP `implode(sep, parts)`. */
  function Join(parts: seq<string>, sep: string): string
  {
    if |parts| == 0 then ""
    else if |parts| == 1 then parts[0]
    else parts[0] + sep + Join(parts[1..], sep)
  }

  /** Concatenation regrouped. */
  lemma Concat3<T>(a: seq<T>, b: seq<T>, c: seq<T>)
    ensures (a + b) + c == a + (b + c)
  {
  }

  lemma {:induction false} JoinSplit(s: string, c: char)
    ensures Join(Split(s, c), [c]) == s
    decreases |s|
  {
    match IndexOf(s, c)
    case None =>
    case Some(i) =>
      var rest := s[i + 1..];
      var parts := Split(rest, c);
      var all := [s[..i]] + parts;
      assert Split(s, c) == all;
      assert all[1..] == parts;
      assert Join(all, [c]) == s[..i] + [c] + Join(parts, [c]);
      JoinSplit(rest, c);
      assert s == s[..i] + [c] + rest;
  }

  lemma {:induction false} SplitJoin(parts: seq<string>, c: char)
    requires |parts| >= 1
    requires forall i :: 0 <= i < |parts| ==> c !in parts[i]
    ensures Split(Join(parts, [c]), c) == parts
    decreases |parts|
  {
    if |parts| > 1 {
      var s := Join(parts, [c]);
      var rest := Join(parts[1..], [c]);
      assert s == parts[0] + [c] + rest;
      IndexOfAfterFree(parts[0], c, rest);
      assert s[|parts[0]| + 1..] == rest;
      assert s[..|parts[0]|] == parts[0];
      SplitJoin(parts[1..], c);
    } else {
      assert Join(parts, [c]) == parts[0];
    }
  }

  lemma IndexOfAfterFree(a: string, c: char, b: string)
    requires c !in a
    ensures IndexOf(a + [c] + b, c) == Some(|a|)
  {
    var s := a + [c] + b;
    assert s[|a|] == c;
    assert s[..|a|] == a;
  }

  /** Splitting `p + [c] + k` adds the piece `k` when `k` is free of `c`. */
  lemma {:induction false} SplitSnoc(p: string, c: char, k: string)
    requires c !in k
    ensures Split(p + [c] + k, c) == Split(p, c) + [k]
    decreases |p|
  {
    var s := p + [c] + k;
    match IndexOf(p, c)
    case None =>
      IndexOfAfterFree(p, c, k);
      assert s[..|p|] == p;
      assert s[|p| + 1..] == k;
      assert IndexOf(k, c).None?;
    case Some(i) =>
      assert IndexOf(s, c) == Some(i) by {
        IndexOfPrefix(p, [c] + k, c);
        assert s == p + ([c] + k);
      }
      assert s[..i] == p[..i];
      assert s[i + 1..] == p[i + 1..] + [c] + k;
      SplitSnoc(p[i + 1..], c, k);
  }

  lemma IndexOfPrefix(a: string, b: string, c: char)
    requires IndexOf(a, c).Some?
    ensures IndexOf(a + b, c) == IndexOf(a, c)
  {
    var i := IndexOf(a, c).value;
    var s := a + b;
    assert s[..i] == a[..i];
    assert s[i] == c;
  }

  predicate IsDigit(c: char) { '0' <= c <= '9' }

  predicate AllDigits(s: string) { forall i :: 0 <= i < |s| ==> IsDigit(s[i]) }

  /** The greedy `[0-9]*` at the start of `s`: its leading run of digits. */
  function DigitRun(s: string): (d: string)
    ensures AllDigits(d) && |d| <= |s| && s[..|d|] == d
    ensures |d| < |s| ==> !IsDigit(s[|d|])
  {
    if |s| > 0 && IsDigit(s[0]) then [s[0]] + DigitRun(s[1..]) else ""
  }

  /** Value of a string of decimal digits ("" has value 0). */
  function DigitsValue(s: string): (r: nat)
    requires AllDigits(s)
    decreases |s|
  {
    if |s| == 0 then 0
    else 10 * DigitsValue(s[..|s| - 1]) + (s[|s| - 1] - '0') as nat
  }

  function DigitChar(d: nat): (c: char)
    requires d < 10
    ensures IsDigit(c)
  {
    ('0' as int + d) as char
  }

  /** Decimal rendering of a natural number, as PHP prints an int. */
  function NatToString(n: nat): (r: string)
    ensures |r| >= 1 && AllDigits(r)
    decreases n
  {
    if n < 10 then [DigitChar(n)] else NatToString(n / 10) + [DigitChar(n % 10)]
  }

  function IntToString(i: int): (r: string)
    ensures |r| >= 1
  {
    if i < 0 then "-" + NatToString(-i) else NatToString(i)
  }

  /** A decimal numeral as PHP renders an int: no superfluous leading zero. */
  predicate Canonical(s: string)
  {
    |s| >= 1 && AllDigits(s) && (s[0] == '0' ==> |s| == 1)
  }

  lemma {:induction false} NatToStringValue(n: nat)
    ensures DigitsValue(NatToString(n)) == n
    ensures Canonical(NatToString(n))
    decreases n
  {
    var r := NatToString(n);
    if n >= 10 {
      NatToStringValue(n / 10);
      assert r[..|r| - 1] == NatToString(n / 10);
      assert r[0] == NatToString(n / 10)[0];
    }
  }

  lemma {:induction false} CanonicalValueInjective(s: string, t: string)
    requires Canonical(s) && Canonical(t) && DigitsValue(s) == DigitsValue(t)
    ensures s == t
    decreases |s| + |t|
  {
    if |s| == 1 && |t| == 1 {
    } else if |s| == 1 {
      TopDigitPositive(t);
    } else if |t| == 1 {
      TopDigitPositive(s);
    } else {
      var s', t' := s[..|s| - 1], t[..|t| - 1];
      assert s'[0] == s[0] && t'[0] == t[0];
      CanonicalValueInjective(s', t');
      assert s == s' + [s[|s| - 1]];
      assert t == t' + [t[|t| - 1]];
    }
  }

  /** A canonical numeral of two or more digits is worth at least 10. */
  lemma {:induction false} TopDigitPositive(s: string)
    requires Canonical(s) && |s| >= 2
    ensures DigitsValue(s) >= 10
    decreases |s|
  {
    var s' := s[..|s| - 1];
    assert s'[0] == s[0];
    if |s'| >= 2 {
      TopDigitPositive(s');
    } else {
      assert s' == [s[0]];
    }
  }

  /** The canonical numeral of a natural number is its rendering. */
  lemma CanonicalIsNatToString(s: string)
    requires Canonical(s)
    ensures NatToString(DigitsValue(s)) == s
  {
    NatToStringValue(DigitsValue(s));
    CanonicalValueInjective(NatToString(DigitsValue(s)), s);
  }

  /** PHP `empty($s)` on a string: "" and "0" are empty. */
  predicate EmptyString(s: string) { s == "" || s == "0" }

  predicate StartsWith(s: string, prefix: string)
  {
    |prefix| <= |s| && s[..|prefix|] == prefix
  }
}

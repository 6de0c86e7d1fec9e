/**
 * The path normalizer as a specification: the three regular-expression
 * passes of `JsonPath::normalize` spelled out as functions on strings.
 * Pass one parks filters `[?(..)]`, scripts `[(..)]` and quoted keys
 * `['..']` in the accumulator and leaves `[#k]` placeholders; pass two cuts
 * the string into ';'-separated tokens; pass three puts the parked text back.
 * Regular expressions are matched leftmost-first, with PCRE's greedy and
 * lazy choices made explicit. That is the parking its authors meant; as
 * written, the first match raises a TypeError instead, which
 * `NormalizeAsWritten` models.
 */
module Normalizer {
  import opened Prelude
  import opened Document

  // ---------------------------------------------------------------------
  // Pass one: `[\['](\??\(.*?\))[\]']` and then `\['(.*?)'\]`
  // ---------------------------------------------------------------------

  /** A match of a parking pattern: where it ends and its first group. */
  datatype Capture = Capture(end: nat, group: string)

  datatype ParkPattern = FilterPattern | QuotedKeyPattern

  predicate ClosesFilter(s: string, j: nat)
  {
    j + 1 < |s| && s[j] == ')' && (s[j + 1] == ']' || s[j + 1] == '\'')
  }

  predicate ClosesQuotedKey(s: string, j: nat)
  {
    j + 1 < |s| && s[j] == '\'' && s[j + 1] == ']'
  }

  /** The lazy `.*?`: the first position from `k` on where the closer matches. */
  function FirstFrom(s: string, k: nat, closes: (string, nat) -> bool): (r: Option<nat>)
    ensures r.Some? ==> k <= r.value < |s| && closes(s, r.value)
    ensures r.Some? ==> forall j :: k <= j < r.value ==> !closes(s, j)
    ensures r.None? ==> forall j :: k <= j < |s| ==> !closes(s, j)
    decreases |s| - k
  {
    if k >= |s| then None
    else if closes(s, k) then Some(k)
    else FirstFrom(s, k + 1, closes)
  }

  /** The pattern tried at the start of `s`. */
  function MatchPark(p: ParkPattern, s: string): (r: Option<Capture>)
    ensures r.Some? ==> 0 < r.value.end <= |s|
  {
    match p
    case FilterPattern =>
      if 1 < |s| && (s[0] == '[' || s[0] == '\'') then
        var q := if s[1] == '?' then 1 else 0;
        if 1 + q < |s| && s[1 + q] == '(' then
          match FirstFrom(s, 2 + q, ClosesFilter)
          case Some(j) => Some(Capture(j + 2, s[1..j + 1]))
          case None => None
        else None
      else None
    case QuotedKeyPattern =>
      if 1 < |s| && s[0] == '[' && s[1] == '\'' then
        match FirstFrom(s, 2, ClosesQuotedKey)
        case Some(j) => Some(Capture(j + 2, s[2..j]))
        case None => None
      else None
  }

  /** The placeholder `tempFilters` returns for buffer index `k`. */
  function Placeholder(k: nat): string
  {
    "[#" + NatToString(k) + "]"
  }

  /**
   * `preg_replace_callback` with `tempFilters` as its authors meant it, the
   * callback receiving the captured group: the text produced and the buffer
   * after the callbacks pushed their rewritten captures. The patterns look
   * only rightwards, so the scan is written on suffixes.
   */
  function ParkAll(p: ParkPattern, s: string, buf: seq<Entry>): (string, seq<Entry>)
    decreases |s|, 1
  {
    if |s| == 0 then ("", buf) else ParkNext(p, s, buf)
  }

  /** One position of the scan: park a match starting here, or keep the character. */
  function ParkNext(p: ParkPattern, s: string, buf: seq<Entry>): (string, seq<Entry>)
    requires |s| > 0
    decreases |s|, 0
  {
    match MatchPark(p, s)
      case Some(c) =>
        var buf' := buf + [Text(DotHack(c.group))];
        var rest := ParkAll(p, s[c.end..], buf');
        (Placeholder(|buf|) + rest.0, rest.1)
      case None =>
        var rest := ParkAll(p, s[1..], buf);
        ([s[0]] + rest.0, rest.1)
  }

  // ---------------------------------------------------------------------
  // The dot hack of `tempFilters`
  // ---------------------------------------------------------------------

  /** The needles of `strPosArray`: `=`, `)`, `!`, `<`, `>`. */
  predicate IsKeyword(c: char)
  {
    c == '=' || c == ')' || c == '!' || c == '<' || c == '>'
  }

  /** `strPosArray`'s search start: positions at or beyond it are not reported. */
  const Closer: nat := 10000

  /** First position of any keyword in `h`, independent of `strPosArray`'s loop. */
  function FirstKeyword(h: string): (r: Option<nat>)
    ensures r.Some? ==> r.value < |h| && IsKeyword(h[r.value])
    ensures r.Some? ==> forall j :: 0 <= j < r.value ==> !IsKeyword(h[j])
    ensures r.None? ==> forall j :: 0 <= j < |h| ==> !IsKeyword(h[j])
  {
    if |h| == 0 then None
    else if IsKeyword(h[0]) then Some(0)
    else match FirstKeyword(h[1..])
      case None => None
      case Some(j) => Some(j + 1)
  }

  /** What `strPosArray($h, $this->keywords)` returns (false is None). */
  function KeywordPosition(h: string): (r: Option<nat>)
  {
    match FirstKeyword(h)
    case Some(p) => if p < Closer then Some(p) else None
    case None => None
  }

  /** A `.part` after the first: `[part]`, keyword tail left outside. */
  function BracketPart(part: string): string
  {
    match KeywordPosition(part)
    case Some(pos) => "[" + part[..pos] + "]" + part[pos..]
    case None => "[" + part + "]"
  }

  /** The parts after the first, each bracketed, in order. */
  function BracketParts(parts: seq<string>): string
  {
    if |parts| == 0 then "" else BracketPart(parts[0]) + BracketParts(parts[1..])
  }

  /** A rewritten span: the text before its first `.`, then every other part bracketed. */
  function RewriteSpan(e: string): string
  {
    var parts := Split(e, '.');
    parts[0] + BracketParts(parts[1..])
  }

  /** Whether `tempFilters` rewrites element `i` of the capture split on `'`. */
  predicate Rewritten(elements: seq<string>, i: nat)
    requires i < |elements|
  {
    i % 2 == 0 && !(i > 0 && StartsWith(elements[i - 1], "\\"))
  }

  function RewriteElement(elements: seq<string>, i: nat): string
    requires i < |elements|
  {
    if Rewritten(elements, i) then RewriteSpan(elements[i]) else elements[i]
  }

  /** Every element of the split capture, rewritten or left as it is. */
  function RewriteAll(elements: seq<string>): seq<string>
  {
    seq(|elements|, i requires 0 <= i < |elements| => RewriteElement(elements, i))
  }

  /** `tempFilters`' rewriting of a group, before it is pushed to the buffer. */
  function DotHack(f: string): string
  {
    Join(RewriteAll(Split(f, '\'')), "'")
  }

  // ---------------------------------------------------------------------
  // Pass two: `'?\.'?|\['?` -> ";", then `;;;|;;` -> ";..;", then
  // `;$|'?\]|'$` -> ""
  // ---------------------------------------------------------------------

  datatype Rule = Separators | Doubled | Noise

  function Replacement(r: Rule): string
  {
    match r
    case Separators => ";"
    case Doubled => ";..;"
    case Noise => ""
  }

  function At(s: string, i: int): (c: char)
  {
    if 0 <= i < |s| then s[i] else '\0'
  }

  /** Length of the rule's match at the start of `s` (0: no match there). */
  function RuleLength(r: Rule, s: string): (n: nat)
    ensures n <= |s|
  {
    if |s| == 0 then 0
    else match r
      case Separators =>
        if s[0] == '\'' && At(s, 1) == '.' then (if At(s, 2) == '\'' then 3 else 2)
        else if s[0] == '.' then (if At(s, 1) == '\'' then 2 else 1)
        else if s[0] == '[' then (if At(s, 1) == '\'' then 2 else 1)
        else 0
      case Doubled =>
        if s[0] == ';' && At(s, 1) == ';' then (if At(s, 2) == ';' then 3 else 2)
        else 0
      case Noise =>
        if s[0] == ';' && |s| == 1 then 1
        else if s[0] == '\'' && At(s, 1) == ']' then 2
        else if s[0] == ']' then 1
        else if s[0] == '\'' && |s| == 1 then 1
        else 0
  }

  /** `preg_replace` of one rule over the whole string. */
  function ReplaceAll(r: Rule, s: string): string
    decreases |s|
  {
    if |s| == 0 then ""
    else
      var n := RuleLength(r, s);
      if n == 0 then [s[0]] + ReplaceAll(r, s[1..])
      else Replacement(r) + ReplaceAll(r, s[n..])
  }

  function Segment(s: string): string
  {
    ReplaceAll(Noise, ReplaceAll(Doubled, ReplaceAll(Separators, s)))
  }

  // ---------------------------------------------------------------------
  // Pass three: `#([0-9]+)` -> restoreFilters
  // ---------------------------------------------------------------------

  /**
   * `restoreFilters`: `$this->result[$digits]`. A digit string that is not
   * PHP's rendering of an int is a string key the list lacks; a missing
   * element reads as null, which converts to "".
   */
  function RestoreFilter(digits: string, buf: seq<Entry>): string
  {
    if Canonical(digits) && DigitsValue(digits) < |buf| then EntryString(buf[DigitsValue(digits)])
    else ""
  }

  function RestoreAll(s: string, buf: seq<Entry>): string
    decreases |s|
  {
    if |s| == 0 then ""
    else
      var d := DigitRun(s[1..]);
      if s[0] == '#' && |d| > 0 then RestoreFilter(d, buf) + RestoreAll(s[1 + |d|..], buf)
      else [s[0]] + RestoreAll(s[1..], buf)
  }

  /**
   * `normalize($expression)` as intended, given the accumulator `buf` it
   * starts with: every parked capture is put back in its token's place.
   */
  function Normalize(expression: string, buf: seq<Entry>): string
  {
    var (s1, b1) := ParkAll(FilterPattern, expression, buf);
    var (s2, b2) := ParkAll(QuotedKeyPattern, s1, b1);
    RestoreAll(Segment(s2), b2)
  }

  // ---------------------------------------------------------------------
  // Pass one as written: `tempFilters(string $filter)` is handed the array
  // of matches, which PHP refuses with a TypeError on the first call
  // ---------------------------------------------------------------------

  /**
   * `preg_replace_callback` with `tempFilters` as written: the scan stops
   * with a TypeError (None) at the first position where the pattern
   * matches, before the callback body runs; a subject it never matches
   * comes back as it was.
   */
  function ParkScan(p: ParkPattern, s: string): (r: Option<string>)
    ensures r.Some? ==> r.value == s
    decreases |s|
  {
    if |s| == 0 then Some("")
    else if MatchPark(p, s).Some? then None
    else match ParkScan(p, s[1..])
      case None => None
      case Some(t) => Some([s[0]] + t)
  }

  /**
   * `normalize($expression)` as written: None for the TypeError out of
   * either parking pass, which leaves the accumulator as it was; otherwise
   * nothing was parked, and the segmenting and restoring passes run on the
   * expression with the stale accumulator `buf`.
   */
  function NormalizeAsWritten(expression: string, buf: seq<Entry>): Option<string>
  {
    match ParkScan(FilterPattern, expression)
    case None => None
    case Some(s1) =>
      match ParkScan(QuotedKeyPattern, s1)
      case None => None
      case Some(s2) => Some(RestoreAll(Segment(s2), buf))
  }

  /** `preg_replace("/^\$;/", "", ...)` in `jsonPath`. */
  function StripRoot(s: string): string
  {
    if StartsWith(s, "$;") then s[2..] else s
  }
}

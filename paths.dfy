/**
 * Paths as a user writes them, and what `normalize` makes of them. A path is
 * `$` followed by steps: `.key`, `..key`, a bracketed token `[0]`, `[*]` or
 * `[1:3]`, a quoted key `['key']`, or a script `[(..)]` or filter `[?(..)]`.
 * Each step is followed through both parking patterns, the three
 * segmenting rules and the restoring pass, and the result is `$;` followed
 * by the step tokens joined by ';'.
 */
module PathNormalization {
  import opened Prelude
  import opened Document
  import opened Normalizer
  import opened NormalizerProperties

  // ---------------------------------------------------------------------
  // Paths as written
  // ---------------------------------------------------------------------

  datatype Step =
    | Child(key: string)
    | Descend(key: string)
    | Bracket(token: string)
    | Quoted(key: string)
    | Script(filter: bool, body: string)

  /** A character that no pass acts on. */
  predicate PlainChar(c: char)
  {
    c != '.' && c != '[' && c != ']' && c != '\'' && c != ';' && c != '#'
  }

  predicate PlainKey(k: string)
  {
    |k| > 0 && forall i :: 0 <= i < |k| ==> PlainChar(k[i])
  }

  /** After `[` or `'`, the characters that may start a script or filter. */
  predicate Opener(c: char)
  {
    c == '?' || c == '('
  }

  /**
   * The steps this development covers. A bracketed token or a quoted key
   * must not look like a script; a quoted key holds no quote and no `[`;
   * a script body holds no `]` and no quote, so its capture ends at its own
   * closing `)]`.
   */
  predicate WellWritten(st: Step)
  {
    match st
    case Child(k) => PlainKey(k)
    case Descend(k) => PlainKey(k)
    case Bracket(t) => PlainKey(t) && !Opener(t[0])
    case Quoted(k) => (forall i :: 0 <= i < |k| ==> k[i] != '\'' && k[i] != '[') && (|k| > 0 ==> !Opener(k[0]))
    case Script(_, b) => forall i :: 0 <= i < |b| ==> b[i] != '\'' && b[i] != ']'
  }

  predicate AllWellWritten(steps: seq<Step>)
  {
    forall i :: 0 <= i < |steps| ==> WellWritten(steps[i])
  }

  /** The captured group of a script: `(body)`, or `?(body)` for a filter. */
  function Group(filter: bool, body: string): string
  {
    (if filter then "?(" else "(") + body + ")"
  }

  function StepText(st: Step): string
  {
    match st
    case Child(k) => "." + k
    case Descend(k) => ".." + k
    case Bracket(t) => "[" + t + "]"
    case Quoted(k) => "['" + k + "']"
    case Script(q, b) => "[" + Group(q, b) + "]"
  }

  /** The path text after `$`. */
  function PathText(steps: seq<Step>): string
  {
    if |steps| == 0 then "" else StepText(steps[0]) + PathText(steps[1..])
  }

  /** The tokens the matcher receives for a step: parked text comes back dot-hacked. */
  function StepTokens(st: Step): seq<string>
  {
    match st
    case Child(k) => [k]
    case Descend(k) => ["..", k]
    case Bracket(t) => [t]
    case Quoted(k) => [DotHack(k)]
    case Script(q, b) => [DotHack(Group(q, b))]
  }

  function TokenList(steps: seq<Step>): seq<string>
  {
    if |steps| == 0 then [] else StepTokens(steps[0]) + TokenList(steps[1..])
  }

  // ---------------------------------------------------------------------
  // Pass one: scripts and filters, then quoted keys, are parked
  // ---------------------------------------------------------------------

  function Scripts(st: Step): nat
  {
    if st.Script? then 1 else 0
  }

  function Quotes(st: Step): nat
  {
    if st.Quoted? then 1 else 0
  }

  /** A step after the filter pattern: a script becomes the placeholder for entry `f`. */
  function FilterParked(st: Step, f: nat): string
  {
    if st.Script? then Placeholder(f) else StepText(st)
  }

  function FilterPass(steps: seq<Step>, f: nat): string
  {
    if |steps| == 0 then ""
    else FilterParked(steps[0], f) + FilterPass(steps[1..], f + Scripts(steps[0]))
  }

  lemma ScriptEntriesCons(steps: seq<Step>)
    requires |steps| > 0
    ensures ScriptEntries(steps) == ScriptEntry(steps[0]) + ScriptEntries(steps[1..])
  {
  }

  lemma QuotedEntriesCons(steps: seq<Step>)
    requires |steps| > 0
    ensures QuotedEntries(steps) == QuotedEntry(steps[0]) + QuotedEntries(steps[1..])
  {
  }

  lemma QuotedEntriesOther(steps: seq<Step>)
    requires |steps| > 0 && !steps[0].Quoted?
    ensures QuotedEntries(steps) == QuotedEntries(steps[1..])
  {
    assert QuotedEntry(steps[0]) == [];
    assert QuotedEntries(steps) == [] + QuotedEntries(steps[1..]);
  }

  lemma FilterPassCons(steps: seq<Step>, f: nat)
    requires |steps| > 0
    ensures FilterPass(steps, f) == FilterParked(steps[0], f) + FilterPass(steps[1..], f + Scripts(steps[0]))
    ensures steps[0].Quoted? ==> FilterPass(steps, f) == StepText(steps[0]) + FilterPass(steps[1..], f)
  {
  }

  /** What the filter pattern pushes: each script's dot-hacked group, in order. */
  function ScriptEntries(steps: seq<Step>): seq<Entry>
  {
    if |steps| == 0 then [] else ScriptEntry(steps[0]) + ScriptEntries(steps[1..])
  }

  function ScriptEntry(st: Step): seq<Entry>
  {
    if st.Script? then [Text(DotHack(Group(st.filter, st.body)))] else []
  }

  /** What the quoted-key pattern pushes: each quoted key, dot-hacked, in order. */
  function QuotedEntries(steps: seq<Step>): seq<Entry>
  {
    if |steps| == 0 then [] else QuotedEntry(steps[0]) + QuotedEntries(steps[1..])
  }

  function QuotedEntry(st: Step): seq<Entry>
  {
    if st.Quoted? then [Text(DotHack(st.key))] else []
  }

  /** No position of `w` starts a match of the filter pattern, whatever follows `w`. */
  predicate NoFilterStart(w: string)
  {
    forall i :: 0 <= i < |w| ==> NoFilterAt(w, i)
  }

  predicate NoFilterAt(w: string, i: nat)
    requires i < |w|
  {
    (w[i] == '[' || w[i] == '\'') ==> i + 1 < |w| && !Opener(w[i + 1])
  }

  /** No position of `w` starts a match of the quoted-key pattern, whatever follows `w`. */
  predicate NoQuotedStart(w: string)
  {
    forall i :: 0 <= i < |w| ==> NoQuotedAt(w, i)
  }

  predicate NoQuotedAt(w: string, i: nat)
    requires i < |w|
  {
    w[i] == '[' ==> i + 1 < |w| && w[i + 1] != '\''
  }

  /** One position of the scan where no match starts. */
  lemma ParkKeeps(p: ParkPattern, s: string, buf: seq<Entry>)
    requires |s| > 0 && MatchPark(p, s).None?
    ensures ParkAll(p, s, buf) == ([s[0]] + ParkAll(p, s[1..], buf).0, ParkAll(p, s[1..], buf).1)
  {
  }

  /** One position of the scan where a match starts. */
  lemma ParkTakes(p: ParkPattern, s: string, buf: seq<Entry>, c: Capture)
    requires |s| > 0 && MatchPark(p, s) == Some(c)
    ensures var rest := ParkAll(p, s[c.end..], buf + [Text(DotHack(c.group))]);
      ParkAll(p, s, buf) == (Placeholder(|buf|) + rest.0, rest.1)
  {
  }

  lemma {:induction false} FilterSkip(w: string, rest: string, buf: seq<Entry>)
    requires NoFilterStart(w)
    ensures ParkAll(FilterPattern, w + rest, buf)
         == (w + ParkAll(FilterPattern, rest, buf).0, ParkAll(FilterPattern, rest, buf).1)
    decreases |w|
  {
    if |w| == 0 {
      assert w + rest == rest;
      assert w + ParkAll(FilterPattern, rest, buf).0 == ParkAll(FilterPattern, rest, buf).0;
    } else {
      var s := w + rest;
      assert NoFilterAt(w, 0);
      FilterNoStart(w, rest);
      ParkKeeps(FilterPattern, s, buf);
      assert s[1..] == w[1..] + rest;
      assert NoFilterStart(w[1..]) by {
        forall i | 0 <= i < |w[1..]| ensures NoFilterAt(w[1..], i) {
          assert NoFilterAt(w, i + 1);
          assert w[1..][i] == w[i + 1];
          assert i + 1 < |w[1..]| ==> w[1..][i + 1] == w[i + 2];
        }
      }
      FilterSkip(w[1..], rest, buf);
      assert w == [w[0]] + w[1..];
      Concat3([w[0]], w[1..], ParkAll(FilterPattern, rest, buf).0);
    }
  }

  lemma FilterNoStart(w: string, rest: string)
    requires 0 < |w| && ((w[0] == '[' || w[0] == '\'') ==> 1 < |w| && !Opener(w[1]))
    ensures MatchPark(FilterPattern, w + rest).None?
  {
    var s := w + rest;
    assert s[0] == w[0];
    assert 1 < |w| ==> s[1] == w[1];
  }

  lemma {:induction false} QuotedSkip(w: string, rest: string, buf: seq<Entry>)
    requires NoQuotedStart(w)
    ensures ParkAll(QuotedKeyPattern, w + rest, buf)
         == (w + ParkAll(QuotedKeyPattern, rest, buf).0, ParkAll(QuotedKeyPattern, rest, buf).1)
    decreases |w|
  {
    if |w| == 0 {
      assert w + rest == rest;
      assert w + ParkAll(QuotedKeyPattern, rest, buf).0 == ParkAll(QuotedKeyPattern, rest, buf).0;
    } else {
      var s := w + rest;
      assert NoQuotedAt(w, 0);
      QuotedNoStart(w, rest);
      ParkKeeps(QuotedKeyPattern, s, buf);
      assert s[1..] == w[1..] + rest;
      assert NoQuotedStart(w[1..]) by {
        forall i | 0 <= i < |w[1..]| ensures NoQuotedAt(w[1..], i) {
          assert NoQuotedAt(w, i + 1);
          assert w[1..][i] == w[i + 1];
          assert i + 1 < |w[1..]| ==> w[1..][i + 1] == w[i + 2];
        }
      }
      QuotedSkip(w[1..], rest, buf);
      assert w == [w[0]] + w[1..];
      Concat3([w[0]], w[1..], ParkAll(QuotedKeyPattern, rest, buf).0);
    }
  }

  lemma QuotedNoStart(w: string, rest: string)
    requires 0 < |w| && (w[0] == '[' ==> 1 < |w| && w[1] != '\'')
    ensures MatchPark(QuotedKeyPattern, w + rest).None?
  {
    var s := w + rest;
    assert s[0] == w[0];
    assert 1 < |w| ==> s[1] == w[1];
  }

  /** The filter pattern finds a script step's whole text and captures its group. */
  lemma ScriptMatches(q: bool, b: string, rest: string)
    requires WellWritten(Script(q, b))
    ensures MatchPark(FilterPattern, StepText(Script(q, b)) + rest)
         == Some(Capture(|StepText(Script(q, b))|, Group(q, b)))
  {
    var o := if q then 2 else 1;
    ScriptOpens(q, b, rest);
    ScriptCloses(q, b, rest);
    ScriptGroup(q, b, rest);
    assert |StepText(Script(q, b))| == o + 1 + |b| + 2;
  }

  /** How a script step's text starts: `[`, then `?(` or `(`, then the body. */
  lemma ScriptOpens(q: bool, b: string, rest: string)
    ensures var s := StepText(Script(q, b)) + rest;
      var o := if q then 2 else 1;
      |StepText(Script(q, b))| == o + 1 + |b| + 2
      && s[0] == '[' && s[1] == (if q then '?' else '(') && (q ==> s[2] == '(')
      && (forall k :: 0 <= k < |b| ==> s[o + 1 + k] == b[k])
      && s[o + 1 + |b|] == ')' && s[o + 1 + |b| + 1] == ']'
  {
    var g := Group(q, b);
    var w := StepText(Script(q, b));
    assert w == "[" + g + "]";
  }

  /** The lazy closer of the filter pattern stops at the script's own `)]`. */
  lemma ScriptCloses(q: bool, b: string, rest: string)
    requires WellWritten(Script(q, b))
    ensures var o := if q then 2 else 1;
      FirstFrom(StepText(Script(q, b)) + rest, o + 1, ClosesFilter) == Some(o + 1 + |b|)
  {
    var s := StepText(Script(q, b)) + rest;
    var o := if q then 2 else 1;
    var j := o + 1 + |b|;
    ScriptOpens(q, b, rest);
    assert ClosesFilter(s, j);
    forall k | o + 1 <= k < j ensures !ClosesFilter(s, k) {
      assert s[k + 1] == if k + 1 < j then b[k + 1 - (o + 1)] else ')';
    }
  }

  /** What the filter pattern captures of a script step: its group. */
  lemma ScriptGroup(q: bool, b: string, rest: string)
    ensures var o := if q then 2 else 1;
      (StepText(Script(q, b)) + rest)[1..o + 1 + |b| + 1] == Group(q, b)
  {
    var g := Group(q, b);
    var w := StepText(Script(q, b));
    assert w == "[" + g + "]";
    assert (w + rest)[1..|g| + 1] == g;
  }

  /** The quoted-key pattern finds a quoted step's whole text and captures its key. */
  lemma QuotedMatches(k: string, rest: string)
    requires WellWritten(Quoted(k))
    ensures MatchPark(QuotedKeyPattern, StepText(Quoted(k)) + rest) == Some(Capture(|k| + 4, k))
  {
    var w := StepText(Quoted(k));
    var s := w + rest;
    var j := |k| + 2;
    assert |w| == |k| + 4;
    assert s[0] == '[' && s[1] == '\'';
    assert forall i :: 0 <= i < |k| ==> s[2 + i] == k[i];
    assert s[j] == '\'' && s[j + 1] == ']';
    assert ClosesQuotedKey(s, j);
    assert forall i :: 2 <= i < j ==> !ClosesQuotedKey(s, i);
    assert FirstFrom(s, 2, ClosesQuotedKey) == Some(j);
    assert s[2..j] == k;
  }

  /** The filter pattern parks a script step in one move. */
  lemma ScriptParks(st: Step, rest: string, buf: seq<Entry>)
    requires st.Script? && WellWritten(st)
    ensures var r := ParkAll(FilterPattern, rest, buf + ScriptEntry(st));
      ParkAll(FilterPattern, StepText(st) + rest, buf) == (Placeholder(|buf|) + r.0, r.1)
  {
    var w := StepText(st);
    var s := w + rest;
    ScriptMatches(st.filter, st.body, rest);
    assert s[|w|..] == rest;
    ParkTakes(FilterPattern, s, buf, Capture(|w|, Group(st.filter, st.body)));
  }

  /** The quoted-key pattern parks a quoted step in one move. */
  lemma QuotedParks(st: Step, rest: string, buf: seq<Entry>)
    requires st.Quoted? && WellWritten(st)
    ensures var r := ParkAll(QuotedKeyPattern, rest, buf + QuotedEntry(st));
      ParkAll(QuotedKeyPattern, StepText(st) + rest, buf) == (Placeholder(|buf|) + r.0, r.1)
  {
    var s := StepText(st) + rest;
    QuotedMatches(st.key, rest);
    assert s[|st.key| + 4..] == rest;
    ParkTakes(QuotedKeyPattern, s, buf, Capture(|st.key| + 4, st.key));
  }

  /** A step other than a script carries no start of the filter pattern. */
  lemma StepNoFilterStart(st: Step)
    requires WellWritten(st) && !st.Script?
    ensures NoFilterStart(StepText(st))
  {
    var w := StepText(st);
    match st
    case Child(k) =>
      assert forall i :: 0 <= i < |w| ==> w[i] != '[' && w[i] != '\'' by {
        assert forall i :: 1 <= i < |w| ==> w[i] == k[i - 1];
      }
    case Descend(k) =>
      assert forall i :: 0 <= i < |w| ==> w[i] != '[' && w[i] != '\'' by {
        assert forall i :: 2 <= i < |w| ==> w[i] == k[i - 2];
      }
    case Bracket(t) =>
      assert forall i :: 1 <= i < |w| - 1 ==> w[i] == t[i - 1];
    case Quoted(k) =>
      assert forall i :: 2 <= i < |w| - 2 ==> w[i] == k[i - 2];
      assert |k| == 0 ==> w[2] == '\'';
  }

  /** After the filter pattern, a step carries no start of the quoted-key pattern, or is quoted. */
  lemma ParkedNoQuotedStart(st: Step, f: nat)
    requires WellWritten(st) && !st.Quoted?
    ensures NoQuotedStart(FilterParked(st, f))
  {
    var w := FilterParked(st, f);
    match st
    case Child(k) =>
      assert forall i :: 1 <= i < |w| ==> w[i] == k[i - 1];
    case Descend(k) =>
      assert forall i :: 2 <= i < |w| ==> w[i] == k[i - 2];
    case Bracket(t) =>
      assert forall i :: 1 <= i < |w| - 1 ==> w[i] == t[i - 1];
    case Script(_, _) =>
      var n := NatToString(f);
      assert w == "[#" + n + "]";
      assert forall i :: 2 <= i < |w| - 1 ==> w[i] == n[i - 2];
  }

  /** The filter pattern over a path: scripts become placeholders from entry `|buf|` on. */
  predicate FilterPassed(steps: seq<Step>, buf: seq<Entry>)
  {
    ParkAll(FilterPattern, PathText(steps), buf) == (FilterPass(steps, |buf|), buf + ScriptEntries(steps))
  }

  lemma {:induction false} FilterPassOn(steps: seq<Step>, buf: seq<Entry>)
    requires AllWellWritten(steps)
    ensures FilterPassed(steps, buf)
    decreases |steps|
  {
    if |steps| == 0 {
      assert buf + [] == buf;
    } else {
      WellWrittenTail(steps);
      if steps[0].Script? {
        FilterPassOn(steps[1..], buf + ScriptEntry(steps[0]));
        ScriptStepParks(steps, buf);
      } else {
        FilterPassOn(steps[1..], buf);
        PlainStepPasses(steps, buf);
      }
    }
  }

  lemma WellWrittenTail(steps: seq<Step>)
    requires |steps| > 0 && AllWellWritten(steps)
    ensures WellWritten(steps[0]) && AllWellWritten(steps[1..])
  {
    assert WellWritten(steps[0]);
    forall i | 0 <= i < |steps[1..]| ensures WellWritten(steps[1..][i]) {
      assert steps[1..][i] == steps[i + 1];
    }
  }

  /** A script step in front of a path whose filter pass is known. */
  lemma ScriptStepParks(steps: seq<Step>, buf: seq<Entry>)
    requires |steps| > 0 && steps[0].Script? && WellWritten(steps[0])
    requires FilterPassed(steps[1..], buf + ScriptEntry(steps[0]))
    ensures FilterPassed(steps, buf)
  {
    assert |buf + ScriptEntry(steps[0])| == |buf| + 1;
    ScriptParks(steps[0], PathText(steps[1..]), buf);
    Concat3(buf, ScriptEntry(steps[0]), ScriptEntries(steps[1..]));
  }

  /** Any other step in front of a path whose filter pass is known. */
  lemma PlainStepPasses(steps: seq<Step>, buf: seq<Entry>)
    requires |steps| > 0 && !steps[0].Script? && WellWritten(steps[0])
    requires FilterPassed(steps[1..], buf)
    ensures FilterPassed(steps, buf)
  {
    StepNoFilterStart(steps[0]);
    FilterSkip(StepText(steps[0]), PathText(steps[1..]), buf);
    assert ScriptEntries(steps) == ScriptEntries(steps[1..]) by {
      assert ScriptEntry(steps[0]) == [];
      assert ScriptEntries(steps) == [] + ScriptEntries(steps[1..]);
    }
  }

  // ---------------------------------------------------------------------
  // After parking: every step is a dot piece or a bracketed piece
  // ---------------------------------------------------------------------

  /** A step once both patterns have parked: `.k`, `..k`, or `[w]`. */
  datatype Piece = Dot(key: string) | Dots(key: string) | Box(inner: string)

  /** The step's piece when the next free entries are `f` for scripts and `q` for quoted keys. */
  function PieceOf(st: Step, f: nat, q: nat): Piece
  {
    match st
    case Child(k) => Dot(k)
    case Descend(k) => Dots(k)
    case Bracket(t) => Box(t)
    case Quoted(_) => Box("#" + NatToString(q))
    case Script(_, _) => Box("#" + NatToString(f))
  }

  function Pieces(steps: seq<Step>, f: nat, q: nat): seq<Piece>
  {
    if |steps| == 0 then []
    else [PieceOf(steps[0], f, q)] + Pieces(steps[1..], f + Scripts(steps[0]), q + Quotes(steps[0]))
  }

  lemma PiecesCons(steps: seq<Step>, f: nat, q: nat)
    requires |steps| > 0
    ensures PiecesText(Pieces(steps, f, q))
         == PieceText(PieceOf(steps[0], f, q)) + PiecesText(Pieces(steps[1..], f + Scripts(steps[0]), q + Quotes(steps[0])))
  {
    var ps := Pieces(steps, f, q);
    assert ps[0] == PieceOf(steps[0], f, q);
    assert ps[1..] == Pieces(steps[1..], f + Scripts(steps[0]), q + Quotes(steps[0]));
  }

  function PieceText(p: Piece): string
  {
    match p
    case Dot(k) => "." + k
    case Dots(k) => ".." + k
    case Box(w) => "[" + w + "]"
  }

  function PiecesText(ps: seq<Piece>): string
  {
    if |ps| == 0 then "" else PieceText(ps[0]) + PiecesText(ps[1..])
  }

  /** What may stand inside a bracket for the segmenting rules to leave it whole. */
  predicate InnerChar(c: char)
  {
    c != '.' && c != '\'' && c != '[' && c != ']' && c != ';'
  }

  predicate GoodPiece(p: Piece)
  {
    match p
    case Dot(k) => PlainKey(k)
    case Dots(k) => PlainKey(k)
    case Box(w) => |w| > 0 && forall i :: 0 <= i < |w| ==> InnerChar(w[i])
  }

  predicate GoodPieces(ps: seq<Piece>)
  {
    forall i :: 0 <= i < |ps| ==> GoodPiece(ps[i])
  }

  lemma PlaceholderIsBox(m: nat)
    ensures Placeholder(m) == PieceText(Box("#" + NatToString(m)))
    ensures GoodPiece(Box("#" + NatToString(m)))
  {
    var n := NatToString(m);
    assert "[#" + n + "]" == "[" + ("#" + n) + "]";
    var w := "#" + n;
    assert forall i :: 1 <= i < |w| ==> w[i] == n[i - 1];
  }

  lemma PiecesQuoted(steps: seq<Step>, f: nat, q: nat)
    requires |steps| > 0 && steps[0].Quoted?
    ensures PiecesText(Pieces(steps, f, q)) == Placeholder(q) + PiecesText(Pieces(steps[1..], f, q + 1))
  {
    PiecesCons(steps, f, q);
    ParkedPieceText(steps[0], f, q);
  }

  lemma PiecesOther(steps: seq<Step>, f: nat, q: nat)
    requires |steps| > 0 && !steps[0].Quoted?
    ensures PiecesText(Pieces(steps, f, q))
         == FilterParked(steps[0], f) + PiecesText(Pieces(steps[1..], f + Scripts(steps[0]), q))
  {
    PiecesCons(steps, f, q);
    ParkedPieceText(steps[0], f, q);
  }

  /** The piece of a step is the text the two patterns leave for it. */
  lemma ParkedPieceText(st: Step, f: nat, q: nat)
    ensures st.Quoted? ==> PieceText(PieceOf(st, f, q)) == Placeholder(q)
    ensures !st.Quoted? ==> PieceText(PieceOf(st, f, q)) == FilterParked(st, f)
  {
    PlaceholderIsBox(f);
    PlaceholderIsBox(q);
  }

  lemma PieceOfGood(st: Step, f: nat, q: nat)
    requires WellWritten(st)
    ensures GoodPiece(PieceOf(st, f, q))
  {
    PlaceholderIsBox(f);
    PlaceholderIsBox(q);
  }

  /** The quoted-key pattern over the filter pass: quoted keys become placeholders from entry `|buf|` on. */
  predicate QuotedPassed(steps: seq<Step>, f: nat, buf: seq<Entry>)
  {
    ParkAll(QuotedKeyPattern, FilterPass(steps, f), buf) == (PiecesText(Pieces(steps, f, |buf|)), buf + QuotedEntries(steps))
  }

  lemma {:induction false} QuotedPassOn(steps: seq<Step>, f: nat, buf: seq<Entry>)
    requires AllWellWritten(steps)
    ensures QuotedPassed(steps, f, buf)
    decreases |steps|
  {
    if |steps| == 0 {
      assert buf + [] == buf;
    } else {
      WellWrittenTail(steps);
      if steps[0].Quoted? {
        QuotedPassOn(steps[1..], f, buf + QuotedEntry(steps[0]));
        QuotedStepParks(steps, f, buf);
      } else {
        QuotedPassOn(steps[1..], f + Scripts(steps[0]), buf);
        OtherStepPasses(steps, f, buf);
      }
    }
  }

  /** The quoted-key pattern parks the text of a quoted step. */
  lemma QuotedStepText(steps: seq<Step>, f: nat, buf: seq<Entry>)
    requires |steps| > 0 && steps[0].Quoted? && WellWritten(steps[0])
    ensures var r := ParkAll(QuotedKeyPattern, FilterPass(steps[1..], f), buf + QuotedEntry(steps[0]));
      ParkAll(QuotedKeyPattern, FilterPass(steps, f), buf) == (Placeholder(|buf|) + r.0, r.1)
  {
    FilterPassCons(steps, f);
    QuotedParks(steps[0], FilterPass(steps[1..], f), buf);
  }

  /** A quoted step in front of a path whose quoted-key pass is known. */
  lemma QuotedStepParks(steps: seq<Step>, f: nat, buf: seq<Entry>)
    requires |steps| > 0 && steps[0].Quoted? && WellWritten(steps[0])
    requires QuotedPassed(steps[1..], f, buf + QuotedEntry(steps[0]))
    ensures QuotedPassed(steps, f, buf)
  {
    assert |buf + QuotedEntry(steps[0])| == |buf| + 1;
    QuotedStepText(steps, f, buf);
    PiecesQuoted(steps, f, |buf|);
    QuotedEntriesCons(steps);
    Concat3(buf, QuotedEntry(steps[0]), QuotedEntries(steps[1..]));
  }

  /** The quoted-key pattern passes over the text of any other step. */
  lemma OtherStepText(steps: seq<Step>, f: nat, buf: seq<Entry>)
    requires |steps| > 0 && !steps[0].Quoted? && WellWritten(steps[0])
    ensures var r := ParkAll(QuotedKeyPattern, FilterPass(steps[1..], f + Scripts(steps[0])), buf);
      ParkAll(QuotedKeyPattern, FilterPass(steps, f), buf) == (FilterParked(steps[0], f) + r.0, r.1)
  {
    FilterPassCons(steps, f);
    ParkedNoQuotedStart(steps[0], f);
    QuotedSkip(FilterParked(steps[0], f), FilterPass(steps[1..], f + Scripts(steps[0])), buf);
  }

  /** Any other step in front of a path whose quoted-key pass is known. */
  lemma OtherStepPasses(steps: seq<Step>, f: nat, buf: seq<Entry>)
    requires |steps| > 0 && !steps[0].Quoted? && WellWritten(steps[0])
    requires QuotedPassed(steps[1..], f + Scripts(steps[0]), buf)
    ensures QuotedPassed(steps, f, buf)
  {
    OtherStepText(steps, f, buf);
    PiecesOther(steps, f, |buf|);
    QuotedEntriesOther(steps);
  }

  // ---------------------------------------------------------------------
  // Pass two: the segmenting rules, piece by piece
  // ---------------------------------------------------------------------

  /** A piece after `'?\.'?|\['?` -> ";". */
  function SemisPiece(p: Piece): string
  {
    match p
    case Dot(k) => ";" + k
    case Dots(k) => ";;" + k
    case Box(w) => ";" + w + "]"
  }

  /** A piece after `;;;|;;` -> ";..;". */
  function DoubledPiece(p: Piece): string
  {
    match p
    case Dot(k) => ";" + k
    case Dots(k) => ";..;" + k
    case Box(w) => ";" + w + "]"
  }

  /** A piece after `;$|'?\]|'$` -> "": the token behind its separator. */
  function CleanPiece(p: Piece): string
  {
    match p
    case Dot(k) => ";" + k
    case Dots(k) => ";..;" + k
    case Box(w) => ";" + w
  }

  function SemisText(ps: seq<Piece>): string
  {
    if |ps| == 0 then "" else SemisPiece(ps[0]) + SemisText(ps[1..])
  }

  function DoubledText(ps: seq<Piece>): string
  {
    if |ps| == 0 then "" else DoubledPiece(ps[0]) + DoubledText(ps[1..])
  }

  function CleanText(ps: seq<Piece>): string
  {
    if |ps| == 0 then "" else CleanPiece(ps[0]) + CleanText(ps[1..])
  }

  lemma PlainInert(k: string, r: Rule)
    requires PlainKey(k)
    ensures forall i :: 0 <= i < |k| ==> Inert(r, k[i])
  {
  }

  lemma InnerInert(w: string, r: Rule)
    requires forall i :: 0 <= i < |w| ==> InnerChar(w[i])
    ensures forall i :: 0 <= i < |w| ==> Inert(r, w[i])
  {
  }

  /** A `.` not followed by a quote is one separator. */
  lemma LeadingDot(t: string)
    requires |t| == 0 || t[0] != '\''
    ensures ReplaceAll(Separators, "." + t) == ";" + ReplaceAll(Separators, t)
  {
    var s := "." + t;
    assert RuleLength(Separators, s) == 1;
    assert s[1..] == t;
  }

  /** A `[` not followed by a quote is one separator. */
  lemma LeadingBracket(t: string)
    requires |t| == 0 || t[0] != '\''
    ensures ReplaceAll(Separators, "[" + t) == ";" + ReplaceAll(Separators, t)
  {
    var s := "[" + t;
    assert RuleLength(Separators, s) == 1;
    assert s[1..] == t;
  }

  lemma SeparatorsKey(k: string, rest: string)
    requires PlainKey(k)
    ensures ReplaceAll(Separators, "." + (k + rest)) == ";" + (k + ReplaceAll(Separators, rest))
  {
    assert (k + rest)[0] == k[0];
    PlainInert(k, Separators);
    InertPrefix(Separators, k, rest);
    LeadingDot(k + rest);
  }

  lemma SeparatorsBox(w: string, rest: string)
    requires GoodPiece(Box(w))
    ensures ReplaceAll(Separators, "[" + (w + "]" + rest)) == ";" + (w + "]" + ReplaceAll(Separators, rest))
  {
    var v := w + "]";
    assert forall i :: 0 <= i < |v| ==> Inert(Separators, v[i]) by {
      InnerInert(w, Separators);
      assert forall i :: 0 <= i < |w| ==> v[i] == w[i];
    }
    InertPrefix(Separators, v, rest);
    assert (v + rest)[0] == w[0];
    LeadingBracket(v + rest);
    Concat3(w, "]", rest);
  }

  lemma SeparatorsPiece(p: Piece, rest: string)
    requires GoodPiece(p)
    ensures ReplaceAll(Separators, PieceText(p) + rest) == SemisPiece(p) + ReplaceAll(Separators, rest)
  {
    var tail := ReplaceAll(Separators, rest);
    match p
    case Dot(k) =>
      Concat3(".", k, rest);
      Concat3(";", k, tail);
      SeparatorsKey(k, rest);
    case Dots(k) =>
      Concat3("..", k, rest);
      assert ".." + (k + rest) == "." + ("." + (k + rest));
      Concat3(";;", k, tail);
      assert ";;" + (k + tail) == ";" + (";" + (k + tail));
      SeparatorsKey(k, rest);
      LeadingDot("." + (k + rest));
    case Box(w) =>
      Concat3("[" + w, "]", rest);
      Concat3("[", w, "]" + rest);
      Concat3(w, "]", rest);
      Concat3(";" + w, "]", tail);
      Concat3(";", w, "]" + tail);
      Concat3(w, "]", tail);
      SeparatorsBox(w, rest);
  }

  lemma {:induction false} SeparatorsOnPieces(ps: seq<Piece>, rest: string)
    requires GoodPieces(ps)
    ensures ReplaceAll(Separators, PiecesText(ps) + rest) == SemisText(ps) + ReplaceAll(Separators, rest)
    decreases |ps|
  {
    if |ps| == 0 {
      assert PiecesText(ps) + rest == rest;
    } else {
      var a, t := PieceText(ps[0]), PiecesText(ps[1..]);
      assert GoodPiece(ps[0]);
      assert GoodPieces(ps[1..]) by {
        forall i | 0 <= i < |ps[1..]| ensures GoodPiece(ps[1..][i]) {
          assert ps[1..][i] == ps[i + 1];
        }
      }
      Concat3(a, t, rest);
      SeparatorsPiece(ps[0], t + rest);
      SeparatorsOnPieces(ps[1..], rest);
      Concat3(SemisPiece(ps[0]), SemisText(ps[1..]), ReplaceAll(Separators, rest));
    }
  }

  lemma DoubledSingle(t: string)
    requires |t| > 0 && t[0] != ';'
    ensures ReplaceAll(Doubled, ";" + t) == ";" + ReplaceAll(Doubled, t)
  {
    var s := ";" + t;
    assert RuleLength(Doubled, s) == 0;
    assert s[1..] == t;
  }

  lemma DoubledPair(t: string)
    requires |t| > 0 && t[0] != ';'
    ensures ReplaceAll(Doubled, ";;" + t) == ";..;" + ReplaceAll(Doubled, t)
  {
    var s := ";;" + t;
    assert RuleLength(Doubled, s) == 2;
    assert s[2..] == t;
  }

  /** Text of one piece, with no `;` of its own, in front of `rest`. */
  lemma DoubledInert(v: string, rest: string)
    requires |v| > 0 && forall i :: 0 <= i < |v| ==> Inert(Doubled, v[i])
    ensures ReplaceAll(Doubled, v + rest) == v + ReplaceAll(Doubled, rest)
    ensures (v + rest)[0] != ';'
  {
    InertPrefix(Doubled, v, rest);
    assert (v + rest)[0] == v[0];
  }

  lemma DoubledPieceStep(p: Piece, rest: string)
    requires GoodPiece(p)
    ensures ReplaceAll(Doubled, SemisPiece(p) + rest) == DoubledPiece(p) + ReplaceAll(Doubled, rest)
  {
    var tail := ReplaceAll(Doubled, rest);
    match p
    case Dot(k) =>
      PlainInert(k, Doubled);
      DoubledInert(k, rest);
      Concat3(";", k, rest);
      Concat3(";", k, tail);
      DoubledSingle(k + rest);
    case Dots(k) =>
      PlainInert(k, Doubled);
      DoubledInert(k, rest);
      Concat3(";;", k, rest);
      Concat3(";..;", k, tail);
      DoubledPair(k + rest);
    case Box(w) =>
      var v := w + "]";
      assert forall i :: 0 <= i < |v| ==> Inert(Doubled, v[i]) by {
        InnerInert(w, Doubled);
        assert forall i :: 0 <= i < |w| ==> v[i] == w[i];
      }
      DoubledInert(v, rest);
      Concat3(";", w, "]");
      Concat3(";", v, rest);
      Concat3(";", v, tail);
      DoubledSingle(v + rest);
  }

  lemma {:induction false} DoubledOnPieces(ps: seq<Piece>, rest: string)
    requires GoodPieces(ps)
    ensures ReplaceAll(Doubled, SemisText(ps) + rest) == DoubledText(ps) + ReplaceAll(Doubled, rest)
    decreases |ps|
  {
    if |ps| == 0 {
      assert SemisText(ps) + rest == rest;
    } else {
      var a, t := SemisPiece(ps[0]), SemisText(ps[1..]);
      assert GoodPiece(ps[0]);
      assert GoodPieces(ps[1..]) by {
        forall i | 0 <= i < |ps[1..]| ensures GoodPiece(ps[1..][i]) {
          assert ps[1..][i] == ps[i + 1];
        }
      }
      Concat3(a, t, rest);
      DoubledPieceStep(ps[0], t + rest);
      DoubledOnPieces(ps[1..], rest);
      Concat3(DoubledPiece(ps[0]), DoubledText(ps[1..]), ReplaceAll(Doubled, rest));
    }
  }

  /** A `;` with text after it is not the final `;` the noise rule removes. */
  lemma NoiseSemi(v: string, rest: string)
    requires |v| > 0 && forall i :: 0 <= i < |v| ==> Inert(Noise, v[i])
    ensures ReplaceAll(Noise, ";" + (v + rest)) == ";" + (v + ReplaceAll(Noise, rest))
  {
    var s := ";" + (v + rest);
    assert |s| > 1 && s[0] == ';';
    assert RuleLength(Noise, s) == 0;
    assert s[1..] == v + rest;
    InertPrefix(Noise, v, rest);
  }

  /** A `]` is removed. */
  lemma NoiseClose(rest: string)
    ensures ReplaceAll(Noise, "]" + rest) == ReplaceAll(Noise, rest)
  {
    var s := "]" + rest;
    assert RuleLength(Noise, s) == 1;
    assert s[1..] == rest;
  }

  lemma NoisePieceStep(p: Piece, rest: string)
    requires GoodPiece(p)
    ensures ReplaceAll(Noise, DoubledPiece(p) + rest) == CleanPiece(p) + ReplaceAll(Noise, rest)
  {
    match p
    case Dot(k) => NoiseDot(k, rest);
    case Dots(k) => NoiseDots(k, rest);
    case Box(w) => NoiseBox(w, rest);
  }

  lemma NoiseDot(k: string, rest: string)
    requires PlainKey(k)
    ensures ReplaceAll(Noise, ";" + k + rest) == ";" + k + ReplaceAll(Noise, rest)
  {
    PlainInert(k, Noise);
    Concat3(";", k, rest);
    Concat3(";", k, ReplaceAll(Noise, rest));
    NoiseSemi(k, rest);
  }

  lemma NoiseDots(k: string, rest: string)
    requires PlainKey(k)
    ensures ReplaceAll(Noise, ";..;" + k + rest) == ";..;" + k + ReplaceAll(Noise, rest)
  {
    var tail := ReplaceAll(Noise, rest);
    PlainInert(k, Noise);
    var r1 := ";" + (k + rest);
    assert ";..;" + k + rest == ";" + (".." + r1);
    NoiseSemi(k, rest);
    NoiseSemi("..", r1);
    assert ";" + (".." + (";" + (k + tail))) == ";..;" + k + tail;
  }

  lemma NoiseBox(w: string, rest: string)
    requires |w| > 0 && forall i :: 0 <= i < |w| ==> InnerChar(w[i])
    ensures ReplaceAll(Noise, ";" + w + "]" + rest) == ";" + w + ReplaceAll(Noise, rest)
  {
    InnerInert(w, Noise);
    Concat3(";" + w, "]", rest);
    Concat3(";", w, "]" + rest);
    NoiseSemi(w, "]" + rest);
    NoiseClose(rest);
    Concat3(";", w, ReplaceAll(Noise, rest));
  }

  lemma {:induction false} NoiseOnPieces(ps: seq<Piece>)
    requires GoodPieces(ps)
    ensures ReplaceAll(Noise, DoubledText(ps)) == CleanText(ps)
    decreases |ps|
  {
    if |ps| > 0 {
      assert GoodPiece(ps[0]);
      assert GoodPieces(ps[1..]) by {
        forall i | 0 <= i < |ps[1..]| ensures GoodPiece(ps[1..][i]) {
          assert ps[1..][i] == ps[i + 1];
        }
      }
      NoisePieceStep(ps[0], DoubledText(ps[1..]));
      NoiseOnPieces(ps[1..]);
    }
  }

  /** The three segmenting rules take the parked pieces to their tokens behind `;`. */
  lemma SegmentPieces(ps: seq<Piece>)
    requires GoodPieces(ps)
    ensures Segment("$" + PiecesText(ps)) == "$" + CleanText(ps)
  {
    InertPrefix(Separators, "$", PiecesText(ps));
    SeparatorsOnPieces(ps, "");
    assert PiecesText(ps) + "" == PiecesText(ps);
    assert ReplaceAll(Separators, "") == "";
    assert SemisText(ps) + "" == SemisText(ps);
    InertPrefix(Doubled, "$", SemisText(ps));
    DoubledOnPieces(ps, "");
    assert DoubledText(ps) + "" == DoubledText(ps);
    assert ReplaceAll(Doubled, "") == "";
    InertPrefix(Noise, "$", DoubledText(ps));
    NoiseOnPieces(ps);
  }

  lemma {:induction false} PiecesGood(steps: seq<Step>, f: nat, q: nat)
    requires AllWellWritten(steps)
    ensures GoodPieces(Pieces(steps, f, q))
    decreases |steps|
  {
    if |steps| > 0 {
      var ps := Pieces(steps, f, q);
      var tail := steps[1..];
      assert WellWritten(steps[0]);
      assert AllWellWritten(tail) by {
        forall i | 0 <= i < |tail| ensures WellWritten(tail[i]) {
          assert tail[i] == steps[i + 1];
        }
      }
      PieceOfGood(steps[0], f, q);
      PiecesGood(tail, f + Scripts(steps[0]), q + Quotes(steps[0]));
      assert forall i :: 1 <= i < |ps| ==> ps[i] == Pieces(tail, f + Scripts(steps[0]), q + Quotes(steps[0]))[i - 1];
    }
  }

  // ---------------------------------------------------------------------
  // Pass three: placeholders are restored
  // ---------------------------------------------------------------------

  /** The buffer holds, from `f` and from `q` on, the entries the two patterns pushed. */
  predicate Agrees(steps: seq<Step>, f: nat, q: nat, b: seq<Entry>)
    decreases |steps|
  {
    if |steps| == 0 then true
    else
      var st := steps[0];
      HeadAgrees(st, f, q, b) && Agrees(steps[1..], f + Scripts(st), q + Quotes(st), b)
  }

  /** The entries `es` sit in `b` from index `f` on. */
  predicate Stored(b: seq<Entry>, f: nat, es: seq<Entry>)
  {
    f + |es| <= |b| && b[f..f + |es|] == es
  }

  lemma StoredSplit(b: seq<Entry>, f: nat, e: seq<Entry>, es: seq<Entry>)
    requires Stored(b, f, e + es)
    ensures Stored(b, f + |e|, es)
    ensures |e| > 0 ==> b[f] == e[0]
  {
    assert b[f + |e|..f + |e| + |es|] == b[f..f + |e + es|][|e|..];
    if |e| > 0 {
      assert b[f] == b[f..f + |e + es|][0];
    }
  }

  /** The middle and last parts of a concatenation are stored where they begin. */
  lemma StoredParts(a: seq<Entry>, x: seq<Entry>, y: seq<Entry>)
    ensures Stored(a + x + y, |a|, x) && Stored(a + x + y, |a + x|, y)
  {
    var b := a + x + y;
    assert b[|a|..|a| + |x|] == x;
    assert b[|a + x|..|a + x| + |y|] == y;
  }

  /** Both kinds of entry of `steps` sit in `b`, from `f` and from `q` on. */
  predicate EntriesAt(steps: seq<Step>, f: nat, q: nat, b: seq<Entry>)
  {
    Stored(b, f, ScriptEntries(steps)) && Stored(b, q, QuotedEntries(steps))
  }

  /** The head of `Agrees`: the first step's entries, if any, sit at `f` and `q`. */
  predicate HeadAgrees(st: Step, f: nat, q: nat, b: seq<Entry>)
  {
    (st.Script? ==> f < |b| && b[f] == Text(DotHack(Group(st.filter, st.body))))
    && (st.Quoted? ==> q < |b| && b[q] == Text(DotHack(st.key)))
  }

  lemma {:induction false} AgreesOn(steps: seq<Step>, f: nat, q: nat, b: seq<Entry>)
    requires EntriesAt(steps, f, q, b)
    ensures Agrees(steps, f, q, b)
    decreases |steps|
  {
    if |steps| > 0 {
      EntriesStep(steps, f, q, b);
      AgreesOn(steps[1..], f + Scripts(steps[0]), q + Quotes(steps[0]), b);
    }
  }

  lemma EntriesStep(steps: seq<Step>, f: nat, q: nat, b: seq<Entry>)
    requires |steps| > 0 && EntriesAt(steps, f, q, b)
    ensures HeadAgrees(steps[0], f, q, b)
    ensures EntriesAt(steps[1..], f + Scripts(steps[0]), q + Quotes(steps[0]), b)
  {
    ScriptsStep(steps, f, b);
    QuotesStep(steps, q, b);
  }

  lemma ScriptsStep(steps: seq<Step>, f: nat, b: seq<Entry>)
    requires |steps| > 0 && Stored(b, f, ScriptEntries(steps))
    ensures steps[0].Script? ==> f < |b| && b[f] == Text(DotHack(Group(steps[0].filter, steps[0].body)))
    ensures Stored(b, f + Scripts(steps[0]), ScriptEntries(steps[1..]))
  {
    ScriptEntriesCons(steps);
    ScriptSplit(b, f, steps[0], ScriptEntries(steps[1..]));
  }

  lemma QuotesStep(steps: seq<Step>, q: nat, b: seq<Entry>)
    requires |steps| > 0 && Stored(b, q, QuotedEntries(steps))
    ensures steps[0].Quoted? ==> q < |b| && b[q] == Text(DotHack(steps[0].key))
    ensures Stored(b, q + Quotes(steps[0]), QuotedEntries(steps[1..]))
  {
    QuotedEntriesCons(steps);
    QuotedSplit(b, q, steps[0], QuotedEntries(steps[1..]));
  }

  lemma ScriptSplit(b: seq<Entry>, f: nat, st: Step, rest: seq<Entry>)
    requires Stored(b, f, ScriptEntry(st) + rest)
    ensures Stored(b, f + Scripts(st), rest)
    ensures st.Script? ==> f < |b| && b[f] == Text(DotHack(Group(st.filter, st.body)))
  {
    if st.Script? {
      StoredSplit(b, f, [Text(DotHack(Group(st.filter, st.body)))], rest);
    } else {
      assert ScriptEntry(st) + rest == rest;
    }
  }

  lemma QuotedSplit(b: seq<Entry>, q: nat, st: Step, rest: seq<Entry>)
    requires Stored(b, q, QuotedEntry(st) + rest)
    ensures Stored(b, q + Quotes(st), rest)
    ensures st.Quoted? ==> q < |b| && b[q] == Text(DotHack(st.key))
  {
    if st.Quoted? {
      StoredSplit(b, q, [Text(DotHack(st.key))], rest);
    } else {
      assert QuotedEntry(st) + rest == rest;
    }
  }

  /** The text the matcher gets: each step's tokens behind a `;`. */
  function TokensStep(st: Step): string
  {
    match st
    case Child(k) => ";" + k
    case Descend(k) => ";..;" + k
    case Bracket(t) => ";" + t
    case Quoted(k) => ";" + DotHack(k)
    case Script(q, b) => ";" + DotHack(Group(q, b))
  }

  function TokensText(steps: seq<Step>): string
  {
    if |steps| == 0 then "" else TokensStep(steps[0]) + TokensText(steps[1..])
  }

  /** Text without `#` goes through restoring unchanged. */
  lemma {:induction false} RestorePrefix(w: string, rest: string, b: seq<Entry>)
    requires '#' !in w
    ensures RestoreAll(w + rest, b) == w + RestoreAll(rest, b)
    decreases |w|
  {
    if |w| == 0 {
      assert w + rest == rest;
    } else {
      var s := w + rest;
      assert s[0] == w[0] && s[1..] == w[1..] + rest;
      RestorePrefix(w[1..], rest, b);
      assert w == [w[0]] + w[1..];
    }
  }

  /** What the rest of the cleaned text starts with: a `;`, or nothing. */
  lemma CleanTextStart(ps: seq<Piece>)
    ensures |CleanText(ps)| == 0 || CleanText(ps)[0] == ';'
  {
    if |ps| > 0 {
      assert CleanText(ps)[0] == CleanPiece(ps[0])[0];
    }
  }

  lemma RestoreStep(st: Step, f: nat, q: nat, rest: seq<Piece>, b: seq<Entry>)
    requires WellWritten(st)
    requires st.Script? ==> f < |b| && b[f] == Text(DotHack(Group(st.filter, st.body)))
    requires st.Quoted? ==> q < |b| && b[q] == Text(DotHack(st.key))
    ensures RestoreAll(CleanPiece(PieceOf(st, f, q)) + CleanText(rest), b)
         == TokensStep(st) + RestoreAll(CleanText(rest), b)
  {
    var r := CleanText(rest);
    var tail := RestoreAll(r, b);
    CleanTextStart(rest);
    match st
    case Child(k) =>
      RestorePrefix(";" + k, r, b);
    case Descend(k) =>
      RestorePrefix(";..;" + k, r, b);
    case Bracket(t) =>
      RestorePrefix(";" + t, r, b);
    case Quoted(k) =>
      RestoreParked(q, r, b);
    case Script(_, _) =>
      RestoreParked(f, r, b);
  }

  /** `;#m` comes back as `;` and the text of entry `m`. */
  lemma RestoreParked(m: nat, r: string, b: seq<Entry>)
    requires m < |b| && b[m].Text?
    requires |r| == 0 || r[0] == ';'
    ensures RestoreAll(CleanPiece(Box("#" + NatToString(m))) + r, b) == ";" + b[m].text + RestoreAll(r, b)
  {
    var n := NatToString(m);
    PlaceholderRestores(m, b, r);
    assert CleanPiece(Box("#" + n)) + r == ";" + ("#" + n + r);
    RestorePrefix(";", "#" + n + r, b);
    Concat3(";", b[m].text, RestoreAll(r, b));
  }

  lemma {:induction false} RestoreOnPieces(steps: seq<Step>, f: nat, q: nat, b: seq<Entry>)
    requires AllWellWritten(steps) && Agrees(steps, f, q, b)
    ensures RestoreAll(CleanText(Pieces(steps, f, q)), b) == TokensText(steps)
    decreases |steps|
  {
    if |steps| > 0 {
      var st, tail := steps[0], steps[1..];
      var f', q' := f + Scripts(st), q + Quotes(st);
      assert WellWritten(st);
      assert AllWellWritten(tail) by {
        forall i | 0 <= i < |tail| ensures WellWritten(tail[i]) {
          assert tail[i] == steps[i + 1];
        }
      }
      var ps := Pieces(steps, f, q);
      assert ps[0] == PieceOf(st, f, q) && ps[1..] == Pieces(tail, f', q');
      RestoreStep(st, f, q, Pieces(tail, f', q'), b);
      RestoreOnPieces(tail, f', q', b);
    }
  }

  // ---------------------------------------------------------------------
  // Tokens joined by ';'
  // ---------------------------------------------------------------------

  lemma JoinCons(head: string, tail: seq<string>)
    ensures Join([head] + tail, ";") == if |tail| == 0 then head else head + ";" + Join(tail, ";")
  {
    assert ([head] + tail)[1..] == tail;
  }

  /** One token in front of the joined tail. */
  lemma JoinsToken(k: string, tail: seq<string>, rest: string)
    requires rest == if |tail| == 0 then "" else ";" + Join(tail, ";")
    ensures ";" + k + rest == ";" + Join([k] + tail, ";")
  {
    JoinCons(k, tail);
    Concat3(";", k, rest);
    if |tail| > 0 {
      Concat3(k, ";", Join(tail, ";"));
    }
  }

  lemma JoinsStep(st: Step, tail: seq<string>, rest: string)
    requires rest == if |tail| == 0 then "" else ";" + Join(tail, ";")
    ensures TokensStep(st) + rest == ";" + Join(StepTokens(st) + tail, ";")
  {
    match st
    case Child(k) =>
      JoinsToken(k, tail, rest);
    case Bracket(t) =>
      JoinsToken(t, tail, rest);
    case Quoted(k) =>
      JoinsToken(DotHack(k), tail, rest);
    case Script(q, b) =>
      JoinsToken(DotHack(Group(q, b)), tail, rest);
    case Descend(k) =>
      JoinsToken(k, tail, rest);
      JoinsDescend(k, tail, rest);
  }

  lemma JoinsDescend(k: string, tail: seq<string>, rest: string)
    requires ";" + k + rest == ";" + Join([k] + tail, ";")
    ensures ";..;" + k + rest == ";" + Join(["..", k] + tail, ";")
  {
    var j := Join([k] + tail, ";");
    assert k + rest == j by {
      assert (";" + k + rest)[1..] == k + rest;
      assert (";" + j)[1..] == j;
    }
    assert Join(["..", k] + tail, ";") == ".." + ";" + j by {
      assert ["..", k] + tail == [".."] + ([k] + tail);
      JoinCons("..", [k] + tail);
    }
    DescendText(k, rest, j);
  }

  lemma DescendText(k: string, rest: string, j: string)
    requires k + rest == j
    ensures ";..;" + k + rest == ";" + (".." + ";" + j)
  {
    assert ";..;" == ";" + ".." + ";";
  }

  lemma {:induction false} TokensTextJoins(steps: seq<Step>)
    requires |steps| > 0
    ensures TokensText(steps) == ";" + Join(TokenList(steps), ";")
    decreases |steps|
  {
    var st, tail, rest := steps[0], TokenList(steps[1..]), TokensText(steps[1..]);
    assert TokenList(steps) == StepTokens(st) + tail;
    if |steps| > 1 {
      TokensTextJoins(steps[1..]);
      assert |tail| > 0 by {
        assert TokenList(steps[1..]) == StepTokens(steps[1]) + TokenList(steps[1..][1..]);
      }
    } else {
      assert steps[1..] == [];
    }
    JoinsStep(st, tail, rest);
  }

  // ---------------------------------------------------------------------
  // The whole of `normalize`
  // ---------------------------------------------------------------------

  /**
   * `normalize` on a path written in any mix of the covered notations:
   * `$;` followed by the step tokens joined by ';'. Keys and bracketed
   * tokens come through as written, `..` is a token of its own, and every
   * quoted key, script and filter is exactly its capture as `tempFilters`
   * parked it, whatever the segmenting rules would have done to it.
   */
  lemma PathNormalizes(steps: seq<Step>, buf: seq<Entry>)
    requires |steps| > 0 && AllWellWritten(steps)
    ensures Normalize("$" + PathText(steps), buf) == "$;" + Join(TokenList(steps), ";")
    ensures StripRoot(Normalize("$" + PathText(steps), buf)) == Join(TokenList(steps), ";")
  {
    var b1 := buf + ScriptEntries(steps);
    var b2 := b1 + QuotedEntries(steps);
    var s1 := "$" + FilterPass(steps, |buf|);
    var s2 := "$" + PiecesText(Pieces(steps, |buf|, |b1|));
    FilterPark(steps, buf);
    QuotedPark(steps, buf);
    assert Normalize("$" + PathText(steps), buf) == RestoreAll(Segment(s2), b2);
    PiecesRestore(steps, buf);
    StripJoined(Join(TokenList(steps), ";"));
  }

  /** Segmenting and restoring what the two parking passes leave. */
  lemma PiecesRestore(steps: seq<Step>, buf: seq<Entry>)
    requires |steps| > 0 && AllWellWritten(steps)
    ensures var b1 := buf + ScriptEntries(steps);
      RestoreAll(Segment("$" + PiecesText(Pieces(steps, |buf|, |b1|))), b1 + QuotedEntries(steps))
      == "$;" + Join(TokenList(steps), ";")
  {
    var se, qe := ScriptEntries(steps), QuotedEntries(steps);
    var b1 := buf + se;
    var b2 := b1 + qe;
    var ps := Pieces(steps, |buf|, |b1|);
    PiecesGood(steps, |buf|, |b1|);
    SegmentPieces(ps);
    StoredParts(buf, se, qe);
    AgreesOn(steps, |buf|, |b1|, b2);
    CleanRestores(steps, |buf|, |b1|, b2);
  }

  lemma CleanRestores(steps: seq<Step>, f: nat, q: nat, b: seq<Entry>)
    requires |steps| > 0 && AllWellWritten(steps) && Agrees(steps, f, q, b)
    ensures RestoreAll("$" + CleanText(Pieces(steps, f, q)), b) == "$;" + Join(TokenList(steps), ";")
  {
    RestorePrefix("$", CleanText(Pieces(steps, f, q)), b);
    RestoreOnPieces(steps, f, q, b);
    TokensTextJoins(steps);
    Concat3("$", ";", Join(TokenList(steps), ";"));
  }

  lemma StripJoined(j: string)
    ensures StripRoot("$;" + j) == j
  {
    assert ("$;" + j)[..2] == "$;";
    assert ("$;" + j)[2..] == j;
  }

  lemma FilterPark(steps: seq<Step>, buf: seq<Entry>)
    requires AllWellWritten(steps)
    ensures ParkAll(FilterPattern, "$" + PathText(steps), buf)
         == ("$" + FilterPass(steps, |buf|), buf + ScriptEntries(steps))
  {
    FilterSkip("$", PathText(steps), buf);
    FilterPassOn(steps, buf);
  }

  lemma QuotedPark(steps: seq<Step>, buf: seq<Entry>)
    requires AllWellWritten(steps)
    ensures var b1 := buf + ScriptEntries(steps);
      ParkAll(QuotedKeyPattern, "$" + FilterPass(steps, |buf|), b1)
      == ("$" + PiecesText(Pieces(steps, |buf|, |b1|)), b1 + QuotedEntries(steps))
  {
    var b1 := buf + ScriptEntries(steps);
    QuotedSkip("$", FilterPass(steps, |buf|), b1);
    QuotedPassOn(steps, |buf|, b1);
  }

  // ---------------------------------------------------------------------
  // Examples
  // ---------------------------------------------------------------------

  /** A written path normalizes to its joined tokens; the examples below instantiate it. */
  lemma WrittenNormalizes(steps: seq<Step>, text: string, tokens: string, buf: seq<Entry>)
    requires |steps| > 0 && AllWellWritten(steps)
    requires text == "$" + PathText(steps) && tokens == Join(TokenList(steps), ";")
    ensures StripRoot(Normalize(text, buf)) == tokens
  {
    PathNormalizes(steps, buf);
  }

  /** The path `jsonPath` strips `$;` from: `$..book.*.category` becomes `..;book;*;category`. */
  lemma BookCategoriesNormalize(buf: seq<Entry>)
    ensures StripRoot(Normalize("$..book.*.category", buf)) == "..;book;*;category"
  {
    var steps := BookSteps();
    BookWritten();
    WrittenNormalizes(steps, "$..book.*.category", "..;book;*;category", buf);
  }

  function BookSteps(): seq<Step>
  {
    [Descend("book"), Child("*"), Child("category")]
  }

  lemma BookWritten()
    ensures |BookSteps()| > 0 && AllWellWritten(BookSteps())
    ensures "$" + PathText(BookSteps()) == "$..book.*.category"
    ensures Join(TokenList(BookSteps()), ";") == "..;book;*;category"
  {
    BookKeys();
    BookText();
    BookTokens();
  }

  lemma BookKeys()
    ensures AllWellWritten(BookSteps())
  {
    assert PlainKey("book") && PlainKey("*") && PlainKey("category");
  }

  lemma BookText()
    ensures "$" + PathText(BookSteps()) == "$..book.*.category"
  {
    PathOfThree(Descend("book"), Child("*"), Child("category"));
  }

  lemma BookTokens()
    ensures Join(TokenList(BookSteps()), ";") == "..;book;*;category"
  {
    TokensOfThree(Descend("book"), Child("*"), Child("category"));
    JoinFour("..", "book", "*", "category");
  }

  /** `$..category` becomes `..;category`. */
  lemma CategoriesNormalize(buf: seq<Entry>)
    ensures StripRoot(Normalize("$..category", buf)) == "..;category"
  {
    CategoriesPieces();
    DescendNormalizes("category", "$..category", "..;category", buf);
  }

  lemma CategoriesPieces()
    ensures PlainKey("category")
    ensures "$..category" == "$.." + "category" && "..;category" == "..;" + "category"
  {
  }

  /** A single descent `$..k` becomes the two tokens `..;k`. */
  lemma DescendNormalizes(k: string, text: string, tokens: string, buf: seq<Entry>)
    requires PlainKey(k) && text == "$.." + k && tokens == "..;" + k
    ensures StripRoot(Normalize(text, buf)) == tokens
  {
    var steps := [Descend(k)];
    assert steps[1..] == [];
    assert PathText(steps) == ".." + k + "";
    JoinCons("..", [k]);
    WrittenNormalizes(steps, text, tokens, buf);
  }

  /** A quoted key and a bracketed index: `$['store'].book[0]` becomes `store;book;0`. */
  lemma QuotedStoreNormalize(buf: seq<Entry>)
    ensures StripRoot(Normalize("$['store'].book[0]", buf)) == "store;book;0"
  {
    StoreText();
    StoreJoined();
    QuotedPathNormalizes("store", "book", "0", "$['store'].book[0]", "store;book;0", buf);
  }

  lemma StoreJoined()
    ensures "store;book;0" == "store" + ";" + "book" + ";" + "0"
  {
  }

  lemma StoreText()
    ensures "$" + PathText([Quoted("store"), Child("book"), Bracket("0")]) == "$['store'].book[0]"
  {
    PathOfThree(Quoted("store"), Child("book"), Bracket("0"));
  }

  /** A quoted key without a dot, a child and an index become the three tokens `k;c;t`. */
  lemma QuotedPathNormalizes(k: string, c: string, t: string, text: string, tokens: string, buf: seq<Entry>)
    requires WellWritten(Quoted(k)) && '.' !in k && PlainKey(c) && PlainKey(t) && !Opener(t[0])
    requires text == "$" + PathText([Quoted(k), Child(c), Bracket(t)])
    requires tokens == k + ";" + c + ";" + t
    ensures StripRoot(Normalize(text, buf)) == tokens
  {
    var steps := [Quoted(k), Child(c), Bracket(t)];
    assert forall i :: 0 <= i < 3 ==> WellWritten(steps[i]);
    QuotedPathTokens(k, c, t);
    WrittenNormalizes(steps, text, tokens, buf);
  }

  lemma QuotedPathTokens(k: string, c: string, t: string)
    requires '.' !in k
    ensures Join(TokenList([Quoted(k), Child(c), Bracket(t)]), ";") == k + ";" + c + ";" + t
  {
    TokensOfThree(Quoted(k), Child(c), Bracket(t));
    DotHackWithoutDot(k);
    assert TokenList([Quoted(k), Child(c), Bracket(t)]) == [k, c, t];
    JoinThree(k, c, t);
  }

  /**
   * A filter is one token, whatever it holds: `$..book[?(b)]` becomes
   * `..;book;` followed by the dot-hacked `?(b)`, for any body `b` without a
   * quote or a `]`.
   */
  lemma FilterNormalize(b: string, buf: seq<Entry>)
    requires forall i :: 0 <= i < |b| ==> b[i] != '\'' && b[i] != ']'
    ensures StripRoot(Normalize("$..book[?(" + b + ")]", buf)) == "..;book;" + DotHack("?(" + b + ")")
  {
    var steps := [Descend("book"), Script(true, b)];
    FilterWritten(b);
    WrittenNormalizes(steps, "$..book[?(" + b + ")]", "..;book;" + DotHack("?(" + b + ")"), buf);
  }

  lemma FilterWritten(b: string)
    requires forall i :: 0 <= i < |b| ==> b[i] != '\'' && b[i] != ']'
    ensures AllWellWritten([Descend("book"), Script(true, b)])
    ensures "$" + PathText([Descend("book"), Script(true, b)]) == "$..book[?(" + b + ")]"
    ensures Join(TokenList([Descend("book"), Script(true, b)]), ";") == "..;book;" + DotHack("?(" + b + ")")
  {
    var steps := [Descend("book"), Script(true, b)];
    assert PlainKey("book");
    FilterText(b);
    FilterTokenList(b);
  }

  lemma FilterText(b: string)
    ensures "$" + PathText([Descend("book"), Script(true, b)]) == "$..book[?(" + b + ")]"
  {
    PathOfTwo(Descend("book"), Script(true, b));
    Regroup("$", "..book", "[", "?(", b, ")", "]");
  }

  lemma Regroup(a: string, c: string, d: string, e: string, b: string, f: string, g: string)
    ensures a + (c + (d + (e + b + f) + g)) == (a + c + d + e) + b + (f + g)
  {
  }

  lemma FilterTokenList(b: string)
    ensures Join(TokenList([Descend("book"), Script(true, b)]), ";") == "..;book;" + DotHack("?(" + b + ")")
  {
    TokensOfTwo(Descend("book"), Script(true, b));
    JoinThree("..", "book", DotHack("?(" + b + ")"));
  }

  lemma PathOfTwo(s1: Step, s2: Step)
    ensures PathText([s1, s2]) == StepText(s1) + StepText(s2)
  {
    assert [s1, s2][1..] == [s2];
    assert [s2][1..] == [];
    assert PathText([s2]) == StepText(s2) + "";
  }

  lemma PathOfThree(s1: Step, s2: Step, s3: Step)
    ensures PathText([s1, s2, s3]) == StepText(s1) + StepText(s2) + StepText(s3)
  {
    assert [s1, s2, s3][1..] == [s2, s3];
    PathOfTwo(s2, s3);
  }

  lemma TokensOfTwo(s1: Step, s2: Step)
    ensures TokenList([s1, s2]) == StepTokens(s1) + StepTokens(s2)
  {
    assert [s1, s2][1..] == [s2];
    assert [s2][1..] == [];
    assert TokenList([s2]) == StepTokens(s2) + [];
  }

  lemma TokensOfThree(s1: Step, s2: Step, s3: Step)
    ensures TokenList([s1, s2, s3]) == StepTokens(s1) + StepTokens(s2) + StepTokens(s3)
  {
    assert [s1, s2, s3][1..] == [s2, s3];
    TokensOfTwo(s2, s3);
  }

  lemma JoinThree(a: string, b: string, c: string)
    ensures Join([a, b, c], ";") == a + ";" + b + ";" + c
  {
    JoinCons(b, [c]);
    assert [a, b, c] == [a] + [b, c];
    JoinCons(a, [b, c]);
  }

  lemma JoinFour(a: string, b: string, c: string, d: string)
    ensures Join([a, b, c, d], ";") == a + ";" + b + ";" + c + ";" + d
  {
    JoinCons(c, [d]);
    assert [b, c, d] == [b] + [c, d];
    JoinCons(b, [c, d]);
    assert [a, b, c, d] == [a] + [b, c, d];
    JoinCons(a, [b, c, d]);
  }

  // ---------------------------------------------------------------------
  // The whole of `normalize` as written
  // ---------------------------------------------------------------------

  /** A step the parking patterns capture. */
  predicate Parked(st: Step)
  {
    st.Quoted? || st.Script?
  }

  /** The parking passes push nothing exactly when no step is a quoted key, a script or a filter. */
  lemma {:induction false} NothingParked(steps: seq<Step>)
    ensures |ScriptEntries(steps)| + |QuotedEntries(steps)| == 0
        <==> forall i :: 0 <= i < |steps| ==> !Parked(steps[i])
  {
    if |steps| > 0 {
      NothingParked(steps[1..]);
      ScriptEntriesCons(steps);
      QuotedEntriesCons(steps);
      if forall i :: 0 <= i < |steps[1..]| ==> !Parked(steps[1..][i]) {
        if !Parked(steps[0]) {
          forall i | 0 <= i < |steps| ensures !Parked(steps[i]) {
            if i > 0 {
              assert steps[i] == steps[1..][i - 1];
            }
          }
        }
      } else {
        var i :| 0 <= i < |steps[1..]| && Parked(steps[1..][i]);
        assert steps[1..][i] == steps[i + 1];
      }
    }
  }

  /**
   * `normalize` as written on a path in the covered notations: it raises the
   * TypeError exactly when some step is a quoted key, a script or a filter,
   * and otherwise gives the joined tokens, as the intended normalizer does.
   */
  lemma PathRaises(steps: seq<Step>, buf: seq<Entry>)
    requires |steps| > 0 && AllWellWritten(steps)
    ensures NormalizeAsWritten("$" + PathText(steps), buf).None?
        <==> exists i :: 0 <= i < |steps| && Parked(steps[i])
    ensures NormalizeAsWritten("$" + PathText(steps), buf).Some? ==>
      NormalizeAsWritten("$" + PathText(steps), buf) == Some("$;" + Join(TokenList(steps), ";"))
  {
    NormalizeAgrees("$" + PathText(steps), buf);
    FilterPark(steps, buf);
    QuotedPark(steps, buf);
    NothingParked(steps);
    PathNormalizes(steps, buf);
  }

  /** `$['store'].book[0]`: the quoted key reaches `tempFilters`, which raises the TypeError. */
  lemma QuotedStoreRaises(buf: seq<Entry>)
    ensures NormalizeAsWritten("$['store'].book[0]", buf) == None
  {
    QuotedPathRaises("store", "book", "0", buf);
    StoreText();
  }

  /** `$['k'].c[t]`: the quoted key reaches `tempFilters`, whatever `k`, `c` and `t` are. */
  lemma QuotedPathRaises(k: string, c: string, t: string, buf: seq<Entry>)
    requires WellWritten(Quoted(k)) && PlainKey(c) && PlainKey(t) && !Opener(t[0])
    ensures NormalizeAsWritten("$" + PathText([Quoted(k), Child(c), Bracket(t)]), buf) == None
  {
    var steps := [Quoted(k), Child(c), Bracket(t)];
    assert forall i :: 0 <= i < 3 ==> WellWritten(steps[i]);
    assert Parked(steps[0]);
    PathRaises(steps, buf);
  }

  /** `$..book[?(b)]`: the filter reaches `tempFilters`, which raises the TypeError. */
  lemma FilterRaises(b: string, buf: seq<Entry>)
    requires forall i :: 0 <= i < |b| ==> b[i] != '\'' && b[i] != ']'
    ensures NormalizeAsWritten("$..book[?(" + b + ")]", buf) == None
  {
    var steps := [Descend("book"), Script(true, b)];
    FilterWritten(b);
    assert Parked(steps[1]);
    PathRaises(steps, buf);
  }

  /** A path of plain steps comes through: `$..book.*.category` still becomes `..;book;*;category`. */
  lemma BookCategoriesAsWritten(buf: seq<Entry>)
    ensures NormalizeAsWritten("$..book.*.category", buf).Some?
    ensures StripRoot(NormalizeAsWritten("$..book.*.category", buf).value) == "..;book;*;category"
  {
    var steps := BookSteps();
    BookWritten();
    assert forall i :: 0 <= i < |steps| ==> !Parked(steps[i]);
    PathRaises(steps, buf);
    StripJoined("..;book;*;category");
  }
}

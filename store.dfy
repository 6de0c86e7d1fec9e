/**
 * `JsonStore`: a document held in the field `data`, read and updated at the
 * locations a JSONPath expression resolves to. The engine answers the
 * expression in `PATH` mode, each canonical path is split back into its
 * keys, and `get`, `set`, `add` and `remove` follow those keys from the root.
 */
module Store {
  import opened Prelude
  import opened Document
  import opened Matcher
  import opened Engine

  // ---------------------------------------------------------------------
  // Splitting a canonical path into keys:
  //   preg_split("/([\"'])?\]\[([\"'])?/",
  //              preg_replace(["/^\$\[[\"']?/", "/[\"']?\]$/"], "", $path))
  // ---------------------------------------------------------------------

  predicate IsQuote(c: char) { c == '"' || c == '\'' }

  /** `^\$\[["']?` removed: the root, its bracket and an optional quote. */
  function StripLead(s: string): string
  {
    if StartsWith(s, "$[") then (if |s| > 2 && IsQuote(s[2]) then s[3..] else s[2..]) else s
  }

  /** `["']?\]$` removed: the leftmost match that ends the string. */
  function StripTrail(s: string): string
  {
    if |s| >= 2 && s[|s| - 1] == ']' && IsQuote(s[|s| - 2]) then s[..|s| - 2]
    else if |s| >= 1 && s[|s| - 1] == ']' then s[..|s| - 1]
    else s
  }

  /** The length of a match of `(["'])?\]\[(["'])?` at the start of `s`, 0 for none. */
  function SepLength(s: string): (n: nat)
    ensures n <= |s|
    ensures n > 0 ==> n >= 2
  {
    if |s| >= 3 && IsQuote(s[0]) && s[1] == ']' && s[2] == '[' then
      if |s| >= 4 && IsQuote(s[3]) then 4 else 3
    else if |s| >= 2 && s[0] == ']' && s[1] == '[' then
      if |s| >= 3 && IsQuote(s[2]) then 3 else 2
    else 0
  }

  /** `preg_split` of `s` on the separator, `piece` being the text since the last one. */
  function SplitFrom(s: string, piece: string): (r: seq<string>)
    ensures |r| >= 1
    decreases |s|
  {
    if |s| == 0 then [piece]
    else if SepLength(s) > 0 then [piece] + SplitFrom(s[SepLength(s)..], "")
    else SplitFrom(s[1..], piece + [s[0]])
  }

  /** The keys `get`, `remove` and, through `get`, `set` and `add` follow for a path. */
  function SplitKeys(path: string): (r: seq<string>)
    ensures |r| >= 1
  {
    SplitFrom(StripTrail(StripLead(path)), "")
  }

  // ---------------------------------------------------------------------
  // Reading and updating a value tree at a key list
  // ---------------------------------------------------------------------

  /**
   * The `for` loop of `get`, `$o = $o[$keys[$i]]`: a missing key reads as
   * `null`, and so does everything below it.
   */
  function GetAt(n: Node, keys: seq<string>): Node
    decreases |keys|
  {
    if |keys| == 0 then n else GetAt(Child(n, keys[0]), keys[1..])
  }

  /** The node at `keys` replaced by `v`; the tree is unchanged when a key is missing. */
  function Replace(n: Node, keys: seq<string>, v: Node): (r: Node)
    decreases |keys|
  {
    if |keys| == 0 then v
    else if !KeyExists(n, keys[0]) then n
    else
      var i := FindIndex(n.members, keys[0]).value;
      Arr(n.members[i := Member(keys[0], Replace(n.members[i].value, keys[1..], v))])
  }

  /** `$parent[$k] = $v`: overwritten in place when present, appended otherwise. */
  function Put(ms: seq<Member>, k: string, v: Node): (r: seq<Member>)
  {
    match FindIndex(ms, k)
    case Some(i) => ms[i := Member(k, v)]
    case None => ms + [Member(k, v)]
  }

  /**
   * The next index `$parent[] = $v` uses: one more than the largest
   * non-negative integer key, 0 when there is none.
   */
  function NextIndex(ms: seq<Member>): (r: nat)
    ensures forall j :: 0 <= j < |ms| && Canonical(ms[j].key) ==> DigitsValue(ms[j].key) < r
  {
    if |ms| == 0 then 0
    else
      var rest := NextIndex(ms[1..]);
      assert forall j :: 1 <= j < |ms| ==> ms[j] == ms[1..][j - 1];
      if Canonical(ms[0].key) && DigitsValue(ms[0].key) + 1 > rest then DigitsValue(ms[0].key) + 1 else rest
  }

  /**
   * One parent of `add`: made an array if it is not one, then given `name`
   * (when non-empty) or the next index.
   */
  function Added(parent: Node, name: string, v: Node): Node
  {
    var ms := if parent.Arr? then parent.members else [];
    if name != "" then Arr(Put(ms, name, v))
    else Arr(ms + [Member(NatToString(NextIndex(ms)), v)])
  }

  /** `unset($parent[$k])`: the member goes, the others keep their keys and order. */
  function Without(ms: seq<Member>, k: string): (r: seq<Member>)
    ensures |r| <= |ms|
  {
    if |ms| == 0 then []
    else if ms[0].key == k then Without(ms[1..], k)
    else [ms[0]] + Without(ms[1..], k)
  }

  function Unset(parent: Node, k: string): Node
  {
    if parent.Arr? then Arr(Without(parent.members, k)) else parent
  }

  /** One path of `remove`: walk to the parent, unset the last key. */
  function RemoveAt(n: Node, keys: seq<string>): Node
    requires |keys| >= 1
  {
    var up := keys[..|keys| - 1];
    Replace(n, up, Unset(GetAt(n, up), keys[|keys| - 1]))
  }

  /** One path of `add`. */
  function AddAt(n: Node, keys: seq<string>, name: string, v: Node): Node
  {
    Replace(n, keys, Added(GetAt(n, keys), name, v))
  }

  /** The keys of every path, in order. */
  function KeyLists(paths: seq<string>): (r: seq<seq<string>>)
    ensures |r| == |paths|
    ensures forall i :: 0 <= i < |paths| ==> r[i] == SplitKeys(paths[i])
  {
    if |paths| == 0 then [] else [SplitKeys(paths[0])] + KeyLists(paths[1..])
  }

  /** `set`, `add` and `remove` apply their key lists one after the other. */
  function SetAll(n: Node, ks: seq<seq<string>>, v: Node): Node
  {
    if |ks| == 0 then n else Replace(SetAll(n, ks[..|ks| - 1], v), ks[|ks| - 1], v)
  }

  function AddAll(n: Node, ks: seq<seq<string>>, name: string, v: Node): Node
  {
    if |ks| == 0 then n else AddAt(AddAll(n, ks[..|ks| - 1], name, v), ks[|ks| - 1], name, v)
  }

  function RemoveAll(n: Node, ks: seq<seq<string>>): Node
    requires forall i :: 0 <= i < |ks| ==> |ks[i]| >= 1
  {
    if |ks| == 0 then n else RemoveAt(RemoveAll(n, ks[..|ks| - 1]), ks[|ks| - 1])
  }

  /** The first `i` key lists of `set` applied: what its loop has built after `i` passes. */
  ghost function SetFirst(n: Node, ks: seq<seq<string>>, i: nat, v: Node): Node
    requires i <= |ks|
  {
    SetAll(n, ks[..i], v)
  }

  lemma SetFirstStep(n: Node, ks: seq<seq<string>>, i: nat, v: Node)
    requires i < |ks|
    ensures SetFirst(n, ks, i + 1, v) == Replace(SetFirst(n, ks, i, v), ks[i], v)
  {
    assert ks[..i + 1][..i] == ks[..i];
  }

  /** All the replacements are `SetAll`. */
  lemma SetFirstAll(n: Node, ks: seq<seq<string>>, v: Node)
    ensures SetFirst(n, ks, |ks|, v) == SetAll(n, ks, v)
  {
    assert ks[..|ks|] == ks;
  }

  /** The first `i` key lists of `add` applied. */
  ghost function AddFirst(n: Node, ks: seq<seq<string>>, i: nat, name: string, v: Node): Node
    requires i <= |ks|
  {
    AddAll(n, ks[..i], name, v)
  }

  lemma AddFirstStep(n: Node, ks: seq<seq<string>>, i: nat, name: string, v: Node)
    requires i < |ks|
    ensures AddFirst(n, ks, i + 1, name, v) == AddAt(AddFirst(n, ks, i, name, v), ks[i], name, v)
  {
    assert ks[..i + 1][..i] == ks[..i];
  }

  /** The first `i` key lists of `remove` applied. */
  ghost function RemoveFirst(n: Node, ks: seq<seq<string>>, i: nat): Node
    requires i <= |ks| && forall j :: 0 <= j < |ks| ==> |ks[j]| >= 1
  {
    RemoveAll(n, ks[..i])
  }

  lemma RemoveFirstStep(n: Node, ks: seq<seq<string>>, i: nat)
    requires i < |ks| && forall j :: 0 <= j < |ks| ==> |ks[j]| >= 1
    ensures RemoveFirst(n, ks, i + 1) == RemoveAt(RemoveFirst(n, ks, i), ks[i])
  {
    assert ks[..i + 1][..i] == ks[..i];
  }

  /** The values `get` collects, one per path, in order. */
  function ValuesAt(n: Node, paths: seq<string>): (r: seq<Node>)
    ensures |r| == |paths|
  {
    if |paths| == 0 then [] else ValuesAt(n, paths[..|paths| - 1]) + [GetAt(n, SplitKeys(paths[|paths| - 1]))]
  }

  // ---------------------------------------------------------------------
  // `unique`
  // ---------------------------------------------------------------------

  /**
   * The comparison `get` deduplicates with: `array_unique`'s string
   * conversion when the first value is not an array, equality of the JSON
   * encodings (here: of the trees) when it is.
   */
  predicate Same(composite: bool, a: Node, b: Node)
  {
    if composite then a == b else PhpString(a) == PhpString(b)
  }

  /** Some value of `kept` is alike `x`. */
  predicate Seen(composite: bool, kept: seq<Node>, x: Node)
  {
    exists j :: 0 <= j < |kept| && Same(composite, kept[j], x)
  }

  /** The first value of each class of `Same` values, in order. */
  function Unique(composite: bool, values: seq<Node>): (r: seq<Node>)
    ensures |r| <= |values|
  {
    if |values| == 0 then []
    else
      var kept := Unique(composite, values[..|values| - 1]);
      var last := values[|values| - 1];
      if Seen(composite, kept, last) then kept else kept + [last]
  }

  /** `get` with `$unique === true`: the branch is chosen by the first value. */
  function UniqueValues(values: seq<Node>): seq<Node>
  {
    Unique(|values| > 0 && values[0].Arr?, values)
  }

  // ---------------------------------------------------------------------
  // `normalizedFirst` and what the public methods answer
  // ---------------------------------------------------------------------

  /**
   * The "fast path" test `preg_match("/^\$(...)*$/")`. In a double-quoted
   * PHP string `\$` is a plain `$`, so the pattern begins with the anchors
   * `^$`, which only the empty string and a lone newline satisfy.
   */
  predicate FastPath(s: string)
  {
    s == "" || s == "\n"
  }

  datatype StoreError = InvalidArgument | NotArray | Exception(error: Error)

  /** What `normalizedFirst` returns: `false`, the path itself, the matched paths, or an exception. */
  datatype Resolution = NotFound | Verbatim(path: string) | Paths(paths: seq<string>) | Failed(problem: StoreError)

  function TextsOf(entries: seq<Entry>): (r: seq<string>)
    ensures |r| == |entries|
    ensures forall j :: 0 <= j < |entries| ==> r[j] == EntryString(entries[j])
  {
    if |entries| == 0 then [] else [EntryString(entries[0])] + TextsOf(entries[1..])
  }

  /**
   * `normalizedFirst($jsonPath)` on `data`, with the engine's buffer `buf`:
   * the resolution and the engine's buffer afterwards. `jsonPath` is typed
   * `array $array`, so a document that is not an array raises a type error.
   */
  function Resolved(ev: Evaluator, fuel: nat, data: Node, jsonPath: string, buf: seq<Entry>): (Resolution, seq<Entry>)
    requires WellFormed(data)
  {
    if EmptyString(jsonPath) then (NotFound, buf)
    else if FastPath(jsonPath) then (Verbatim(jsonPath), buf)
    else if !data.Arr? then (Failed(NotArray), buf)
    else
      var (answer, buf') := Answered(ev, fuel, data, jsonPath, PathType, buf);
      match answer
      case NoResult => (NotFound, buf')
      case Results(es) => (Paths(TextsOf(es)), buf')
      case Raised(e) => (Failed(Exception(e)), buf')
  }

  datatype Got = Values(values: seq<Node>) | Threw(problem: StoreError)

  /** `get`: nothing unless the resolution is a list of paths; the values there otherwise. */
  function Gotten(data: Node, r: Resolution, unique: bool): Got
  {
    match r
    case Paths(ps) => Values(if unique then UniqueValues(ValuesAt(data, ps)) else ValuesAt(data, ps))
    case Failed(e) => Threw(e)
    case _ => Values([])
  }

  /** What `set`, `add` and `remove` answer: `true`, `false`, or an exception. */
  datatype Status = Status(ok: bool) | Thrown(problem: StoreError)

  /** The argument of `setData`, by PHP type; decoding JSON text or objects happens outside. */
  datatype Input = ArrayData(tree: Node) | Decoded(node: Node) | Unsupported

  /** `toArray`. */
  function ArrayOf(data: Node): Node
  {
    if data.Arr? then data else Arr([])
  }

  class JsonStore {
    var data: Node
    const engine: JsonPath

    /**
     * `__construct`: a fresh engine, then `setData` on the argument. The
     * argument that `setData` refuses makes the constructor throw, so it is
     * excluded here.
     */
    constructor(ev: Evaluator, fuel: nat, input: Input)
      requires !input.Unsupported?
      requires input.ArrayData? ==> input.tree.Arr?
      ensures data == (if input.ArrayData? then input.tree else input.node)
      ensures fresh(engine)
      ensures engine.ev == ev && engine.fuel == fuel && engine.result == []
    {
      engine := new JsonPath(ev, fuel);
      data := if input.ArrayData? then input.tree else input.node;
    }

    /**
     * `setData`/`fillFromArray`: arrays are stored as they are, decoded
     * strings and objects as decoded, anything else is refused.
     */
    method SetData(input: Input) returns (err: Option<StoreError>)
      requires input.ArrayData? ==> input.tree.Arr?
      modifies this`data
      ensures input.ArrayData? ==> data == input.tree && err == None
      ensures input.Decoded? ==> data == input.node && err == None
      ensures input.Unsupported? ==> data == old(data) && err == Some(InvalidArgument)
    {
      match input
      case ArrayData(a) =>
        data := a;
        err := None;
      case Decoded(n) =>
        data := n;
        err := None;
      case Unsupported =>
        err := Some(InvalidArgument);
    }

    /** `toArray`: the data when it is an array, `[]` otherwise. */
    method ToArray() returns (r: Node)
      ensures r.Arr?
      ensures data.Arr? ==> r == data
      ensures !data.Arr? ==> r == Arr([])
    {
      if data.Arr? {
        r := data;
      } else {
        r := Arr([]);
      }
    }

    /** `normalizedFirst`: the matched paths, by a `PATH` query of the engine. */
    method NormalizedFirst(jsonPath: string) returns (r: Resolution)
      requires WellFormed(data)
      modifies engine`obj, engine`resultType, engine`result
      ensures (r, engine.result) == Resolved(engine.ev, engine.fuel, data, jsonPath, old(engine.result))
    {
      if EmptyString(jsonPath) {
        return NotFound;
      }
      if FastPath(jsonPath) {
        return Verbatim(jsonPath);
      }
      if !data.Arr? {
        return Failed(NotArray);
      }
      var answer := engine.Query(data, jsonPath, Some(PathType));
      match answer
      case NoResult => r := NotFound;
      case Results(es) => r := Paths(TextsOf(es));
      case Raised(e) => r := Failed(Exception(e));
    }

    /** The key loop of `get`: `$o =& $o[$keys[$i]]` from the root. */
    method Walk(keys: seq<string>) returns (o: Node)
      ensures o == GetAt(data, keys)
    {
      o := data;
      var i := 0;
      while i < |keys|
        invariant 0 <= i <= |keys|
        invariant GetAt(data, keys) == GetAt(o, keys[i..])
      {
        assert keys[i..][1..] == keys[i + 1..];
        o := Child(o, keys[i]);
        i := i + 1;
      }
    }

    /** The path loop of `get`. */
    method ValuesOf(ps: seq<string>) returns (values: seq<Node>)
      ensures values == ValuesAt(data, ps)
    {
      values := [];
      var i := 0;
      while i < |ps|
        invariant 0 <= i <= |ps|
        invariant values == ValuesAt(data, ps[..i])
      {
        var o := Walk(SplitKeys(ps[i]));
        assert ps[..i + 1][..i] == ps[..i];
        values := values + [o];
        i := i + 1;
      }
      assert ps[..|ps|] == ps;
    }

    /** `get`: the values at the matched paths, in order, optionally deduplicated. */
    method Get(jsonPath: string, unique: bool) returns (r: Got)
      requires WellFormed(data)
      modifies engine`obj, engine`resultType, engine`result
      ensures (r, engine.result) == (Gotten(data, Resolved(engine.ev, engine.fuel, data, jsonPath, old(engine.result)).0, unique),
                                    Resolved(engine.ev, engine.fuel, data, jsonPath, old(engine.result)).1)
    {
      var exprs := NormalizedFirst(jsonPath);
      match exprs
      case Failed(e) => return Threw(e);
      case NotFound => return Values([]);
      case Verbatim(_) => return Values([]);
      case Paths(ps) =>
        var values := ValuesOf(ps);
        if unique {
          values := UniqueValues(values);
        }
        return Values(values);
    }

    /** The path loop of `set`. */
    method SetPaths(ps: seq<string>, value: Node)
      modifies this`data
      ensures data == SetAll(old(data), KeyLists(ps), value)
    {
      ghost var ks := KeyLists(ps);
      assert ks[..0] == [];
      var i := 0;
      while i < |ps|
        invariant 0 <= i <= |ps|
        invariant data == SetFirst(old(data), ks, i, value)
      {
        SetFirstStep(old(data), ks, i, value);
        data := Replace(data, SplitKeys(ps[i]), value);
        i := i + 1;
      }
      SetFirstAll(old(data), ks, value);
    }

    /** The path loop of `add`. */
    method AddPaths(ps: seq<string>, name: string, value: Node)
      modifies this`data
      ensures data == AddAll(old(data), KeyLists(ps), name, value)
    {
      ghost var ks := KeyLists(ps);
      assert ks[..0] == [];
      var i := 0;
      while i < |ps|
        invariant 0 <= i <= |ps|
        invariant data == AddFirst(old(data), ks, i, name, value)
      {
        AddFirstStep(old(data), ks, i, name, value);
        var keys := SplitKeys(ps[i]);
        var parent := Walk(keys);
        data := Replace(data, keys, Added(parent, name, value));
        i := i + 1;
      }
      assert ks[..|ps|] == ks;
    }

    /** One path of `remove`: unset the last key in the value the others lead to. */
    method RemoveKeys(keys: seq<string>)
      requires |keys| >= 1
      modifies this`data
      ensures data == RemoveAt(old(data), keys)
    {
      var up := keys[..|keys| - 1];
      var parent := Walk(up);
      data := Replace(data, up, Unset(parent, keys[|keys| - 1]));
    }

    /** The path loop of `remove`. */
    method RemovePaths(ps: seq<string>)
      modifies this`data
      ensures data == RemoveAll(old(data), KeyLists(ps))
    {
      ghost var ks := KeyLists(ps);
      assert ks[..0] == [];
      var i := 0;
      while i < |ps|
        invariant 0 <= i <= |ps|
        invariant data == RemoveFirst(old(data), ks, i)
      {
        RemoveFirstStep(old(data), ks, i);
        RemoveKeys(SplitKeys(ps[i]));
        i := i + 1;
      }
      assert ks[..|ps|] == ks;
    }

    /** `set`: `false` when nothing matched, else the value at every matched location. */
    method Set(jsonPath: string, value: Node) returns (r: Status)
      requires WellFormed(data)
      modifies this`data, engine`obj, engine`resultType, engine`result
      ensures var (res, buf) := Resolved(engine.ev, engine.fuel, old(data), jsonPath, old(engine.result));
        && engine.result == buf
        && (res.Failed? ==> r == Thrown(res.problem) && data == old(data))
        && (res.Paths? ==> r == Status(true) && data == SetAll(old(data), KeyLists(res.paths), value))
        && (!res.Failed? && !res.Paths? ==> r == Status(false) && data == old(data))
    {
      var exprs := NormalizedFirst(jsonPath);
      match exprs
      case Failed(e) => return Thrown(e);
      case NotFound => return Status(false);
      case Verbatim(_) => return Status(false);
      case Paths(ps) =>
        SetPaths(ps, value);
        return Status(true);
    }

    /** `add`: `false` when no parent matched, else `value` added to every matched parent. */
    method Add(parentPath: string, value: Node, name: string) returns (r: Status)
      requires WellFormed(data)
      modifies this`data, engine`obj, engine`resultType, engine`result
      ensures var (res, buf) := Resolved(engine.ev, engine.fuel, old(data), parentPath, old(engine.result));
        && engine.result == buf
        && (res.Failed? ==> r == Thrown(res.problem) && data == old(data))
        && (res.Paths? ==> r == Status(true) && data == AddAll(old(data), KeyLists(res.paths), name, value))
        && (!res.Failed? && !res.Paths? ==> r == Status(false) && data == old(data))
    {
      var exprs := NormalizedFirst(parentPath);
      match exprs
      case Failed(e) => return Thrown(e);
      case NotFound => return Status(false);
      case Verbatim(_) => return Status(false);
      case Paths(ps) =>
        AddPaths(ps, name, value);
        return Status(true);
    }

    /** `remove`: `false` unless paths matched; then the last key of each is unset. */
    method Remove(jsonPath: string) returns (r: Status)
      requires WellFormed(data)
      modifies this`data, engine`obj, engine`resultType, engine`result
      ensures var (res, buf) := Resolved(engine.ev, engine.fuel, old(data), jsonPath, old(engine.result));
        && engine.result == buf
        && (res.Failed? ==> r == Thrown(res.problem) && data == old(data))
        && (res.Paths? ==> r == Status(true) && data == RemoveAll(old(data), KeyLists(res.paths)))
        && (!res.Failed? && !res.Paths? ==> r == Status(false) && data == old(data))
    {
      var exprs := NormalizedFirst(jsonPath);
      match exprs
      case Failed(e) => return Thrown(e);
      case NotFound => return Status(false);
      case Verbatim(_) => return Status(false);
      case Paths(ps) =>
        RemovePaths(ps);
        return Status(true);
    }
  }
}

/**
 * The in-memory document. PHP arrays are both lists and objects: a node is
 * either a scalar or an ordered sequence of (key, node) members. List
 * indices are the keys "0", "1", ...; all keys are strings.
 */
module Document {
  import opened Prelude

  /** Scalars; floating-point numbers are not part of the model. */
  datatype Scalar = Str(s: string) | Int(i: int) | Bool(b: bool) | Null

  datatype Node = Scalar(v: Scalar) | Arr(members: seq<Member>)

  datatype Member = Member(key: string, value: Node)

  /** PHP's `null`, what `$array[$missingKey]` reads. */
  const NullNode: Node := Scalar(Null)

  function Keys(ms: seq<Member>): (r: seq<string>)
    ensures |r| == |ms|
    ensures forall i :: 0 <= i < |ms| ==> r[i] == ms[i].key
  {
    if |ms| == 0 then [] else [ms[0].key] + Keys(ms[1..])
  }

  predicate HasKey(ms: seq<Member>, k: string)
  {
    exists i :: 0 <= i < |ms| && ms[i].key == k
  }

  /** Position of the member with key `k` (the first one, keys being distinct). */
  function FindIndex(ms: seq<Member>, k: string): (r: Option<nat>)
    ensures r.Some? ==> r.value < |ms| && ms[r.value].key == k
    ensures r.Some? ==> forall j :: 0 <= j < r.value ==> ms[j].key != k
    ensures r.None? <==> !HasKey(ms, k)
  {
    if |ms| == 0 then None
    else if ms[0].key == k then Some(0)
    else match FindIndex(ms[1..], k)
      case None =>
        assert forall i :: 1 <= i < |ms| ==> ms[i] == ms[1..][i - 1];
        None
      case Some(i) => Some(i + 1)
  }

  /** PHP `array_key_exists($k, $node)`: false on a scalar. */
  predicate KeyExists(n: Node, k: string)
  {
    n.Arr? && HasKey(n.members, k)
  }

  /** PHP `$node[$k]` for reading: the member's value, `null` when absent. */
  function Child(n: Node, k: string): (r: Node)
    ensures KeyExists(n, k) ==> exists i :: 0 <= i < |n.members| && n.members[i].key == k && r == n.members[i].value
    ensures !KeyExists(n, k) ==> r == NullNode
  {
    if n.Arr? then
      match FindIndex(n.members, k)
      case Some(i) => n.members[i].value
      case None => NullNode
    else NullNode
  }

  predicate DistinctKeys(ms: seq<Member>)
  {
    forall i, j :: 0 <= i < j < |ms| ==> ms[i].key != ms[j].key
  }

  /**
   * A document PHP can hold and the matcher can walk: keys are distinct
   * (PHP arrays are maps) and contain no ';', the matcher's token separator.
   */
  predicate WellFormed(n: Node)
  {
    match n
    case Scalar(_) => true
    case Arr(ms) =>
      DistinctKeys(ms)
      && (forall i :: 0 <= i < |ms| ==> ';' !in ms[i].key)
      && (forall i :: 0 <= i < |ms| ==> WellFormed(ms[i].value))
  }

  /** Number of nodes in the tree. */
  function Size(n: Node): (r: nat)
    ensures r >= 1
  {
    match n
    case Scalar(_) => 1
    case Arr(ms) => 1 + MembersSize(ms)
  }

  function MembersSize(ms: seq<Member>): nat
  {
    if |ms| == 0 then 0 else Size(ms[0].value) + MembersSize(ms[1..])
  }

  lemma {:induction false} MemberSmaller(ms: seq<Member>, i: nat)
    requires i < |ms|
    ensures Size(ms[i].value) <= MembersSize(ms)
    decreases i
  {
    if i > 0 { MemberSmaller(ms[1..], i - 1); }
  }

  /** Every child is strictly smaller than its parent. */
  lemma ChildSmaller(n: Node, i: nat)
    requires n.Arr? && i < |n.members|
    ensures Size(n.members[i].value) < Size(n)
  {
    MemberSmaller(n.members, i);
  }

  function ScalarString(v: Scalar): string
  {
    match v
    case Str(s) => s
    case Int(i) => IntToString(i)
    case Bool(b) => if b then "1" else ""
    case Null => ""
  }

  /** PHP's `(string)` conversion: an array converts to "Array". */
  function PhpString(n: Node): string
  {
    match n
    case Scalar(v) => ScalarString(v)
    case Arr(_) => "Array"
  }

  /**
   * An element of the engine's accumulator: a matched value, or a string (a
   * canonical path, or a parked filter while a path is being normalized).
   */
  datatype Entry = Value(node: Node) | Text(text: string)

  /** What PHP makes of an accumulator element used as a string. */
  function EntryString(e: Entry): string
  {
    match e
    case Value(n) => PhpString(n)
    case Text(t) => t
  }

  /** PHP callers' notion of an empty array (`empty($array)`). */
  predicate EmptyArray(ms: seq<Member>) { |ms| == 0 }
}

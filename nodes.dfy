/**
 * The decoded JSON a `Value` wraps, as `json_decode($source, false)` produces it (objects as
 * `stdClass`, lists as PHP arrays), plus the stray values `Json::pretend` may be handed, and the
 * naming of those values in failure messages (`Json::prettyPrintType`, `Json::prettyPrintValue`).
 */
module Nodes {
  import opened Text

  /**
   * A decoded JSON node. Numbers are integers; an object's fields are kept in insertion order,
   * as `foreach` over a `stdClass` visits them. `Unknown` is any other PHP value, such as a
   * resource or a non-`stdClass` object, that `Json::pretend` was given.
   */
  datatype Node =
    | Null
    | Bool(b: bool)
    | Num(n: int)
    | Str(s: string)
    | Arr(items: seq<Node>)
    | Obj(fields: seq<(string, Node)>)
    | Unknown

  /** The eight words `prettyPrintType` can return. */
  const TypeNames: set<string> :=
    {"string", "null", "true", "false", "number", "array", "object", "unknown type"}

  /** `Json::prettyPrintType`: its if-chain over the PHP types, each case a distinct word. */
  function TypeName(n: Node): (r: string)
    ensures r in TypeNames
    ensures r == "string" <==> n.Str?
    ensures r == "null" <==> n.Null?
    ensures r == "true" <==> n == Bool(true)
    ensures r == "false" <==> n == Bool(false)
    ensures r == "number" <==> n.Num?
    ensures r == "array" <==> n.Arr?
    ensures r == "object" <==> n.Obj?
    ensures r == "unknown type" <==> n.Unknown?
  {
    if n.Str? then "string"
    else if n.Null? then "null"
    else if n == Bool(true) then "true"
    else if n == Bool(false) then "false"
    else if n.Num? then "number"
    else if n.Arr? then "array"
    else if n.Obj? then "object"
    else "unknown type"
  }

  /** The longest string `prettyPrintValue` shows in full, in code points. */
  const ShownLength: nat := 30

  /**
   * `Json::prettyPrintValue`: a string in double quotes, cut to its first 30 code points and
   * marked with " ..." when longer; a number in decimal; anything else by its type word.
   */
  function PrettyPrintValue(n: Node): (r: string)
    ensures n.Str? ==> |r| >= 2 && r[0] == '"' && r[|r| - 1] == '"'
    ensures n.Str? && |n.s| <= ShownLength ==> r[1..|r| - 1] == n.s
    ensures n.Str? && |n.s| > ShownLength ==>
              r[1..|r| - 1] == n.s[..ShownLength] + " ..." && |r| == ShownLength + 6
    ensures n.Num? ==> r == IntToString(n.n)
    ensures !n.Str? && !n.Num? ==> r == TypeName(n)
  {
    match n
    case Str(s) =>
      var shown := if |s| > ShownLength then s[..ShownLength] + " ..." else s;
      "\"" + shown + "\""
    case Num(i) => IntToString(i)
    case Null => "null"
    case Bool(b) => if b then "true" else "false"
    case Arr(_) => "array"
    case Obj(_) => "object"
    case Unknown => "unknown type"
  }

  /** `property_exists`: whether an object has a field of that name. */
  predicate HasKey(fields: seq<(string, Node)>, name: string)
  {
    exists i :: 0 <= i < |fields| && fields[i].0 == name
  }

  /** The field names of an object, in order. */
  function Keys(fields: seq<(string, Node)>): (ks: seq<string>)
    ensures |ks| == |fields|
    ensures forall i :: 0 <= i < |fields| ==> ks[i] == fields[i].0
  {
    if fields == [] then [] else [fields[0].0] + Keys(fields[1..])
  }

  /** A `stdClass` has at most one property of each name. */
  ghost predicate DistinctKeys(fields: seq<(string, Node)>)
  {
    forall i, j :: 0 <= i < j < |fields| ==> fields[i].0 != fields[j].0
  }

  /** `$object->$name` for a present field: the first field of that name. */
  function Lookup(fields: seq<(string, Node)>, name: string): (v: Node)
    requires HasKey(fields, name)
    decreases |fields|
  {
    if fields[0].0 == name then fields[0].1
    else
      assert HasKey(fields[1..], name) by {
        var i :| 0 <= i < |fields| && fields[i].0 == name;
        assert fields[1..][i - 1] == fields[i];
      }
      Lookup(fields[1..], name)
  }

  /** In an object with distinct names, the looked-up node is the one stored under the name. */
  lemma {:induction false} LookupFinds(fields: seq<(string, Node)>, i: nat)
    requires i < |fields| && DistinctKeys(fields)
    ensures HasKey(fields, fields[i].0)
    ensures Lookup(fields, fields[i].0) == fields[i].1
    decreases i
  {
    if i > 0 {
      assert DistinctKeys(fields[1..]) by {
        forall a, b | 0 <= a < b < |fields[1..]| ensures fields[1..][a].0 != fields[1..][b].0 {
          assert fields[1..][a] == fields[a + 1] && fields[1..][b] == fields[b + 1];
        }
      }
      assert fields[1..][i - 1] == fields[i];
      LookupFinds(fields[1..], i - 1);
    }
  }
}

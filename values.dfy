/**
 * `Value`: a decoded JSON node paired with the JSONPath-like pointer to where it sits. Every
 * navigation step and every conversion checks the node's shape and either returns a narrower
 * result or throws an `AssertionFailed` whose message names the pointer and the node's type.
 * Callbacks are functions returning a `Result`, so that what they throw is part of the model.
 */
module Values {
  import opened Wrappers
  import opened Text
  import opened Nodes
  import opened Exceptions

  /** `Value`: the node (`mixed()`) and its pointer (`getPointer()`), both fixed at construction. */
  datatype Value = Value(node: Node, pointer: string)

  /**
   * The fields of an `OptionalValue`: absent (`value` is `None`) or a present `Value`, and a
   * pointer. It is declared here because `Value::¿field` and `Value::¿nth` build one.
   */
  datatype OptionalRep = OptionalRep(value: Option<Value>, pointer: string)

  /** The state the `OptionalValue` constructor establishes: a present value is never null. */
  predicate Normalised(o: OptionalRep)
  {
    o.value.Some? ==> !o.value.value.node.Null?
  }

  /** `OptionalValue`: only the constructor builds one, so every instance is normalised. */
  type OptionalValue = o: OptionalRep | Normalised(o) witness OptionalRep(None, "$")

  /** The `OptionalValue` constructor: PHP null and a null `Value` both give the absent state. */
  function MakeOptional(value: Option<Value>, pointer: string): (o: OptionalValue)
    ensures o.pointer == pointer
    ensures o.value.None? <==> value.None? || value.value.node.Null?
    ensures o.value.Some? ==> o.value == value
  {
    if value.None? || value.value.node.Null? then OptionalRep(None, pointer)
    else OptionalRep(value, pointer)
  }

  // ---------------------------------------------------------------------------------------------
  // Pointers and messages.

  /** `sprintf("%s.%s", pointer, name)`. */
  function FieldPointer(pointer: string, name: string): string
  {
    pointer + "." + name
  }

  /** `sprintf("%s[%d]", pointer, n)`. */
  function IndexPointer(pointer: string, n: int): string
  {
    pointer + "[" + IntToString(n) + "]"
  }

  /** `sprintf("Expected %s to be <what>, %s given.", pointer, Json::prettyPrintType(node))`. */
  function Expected(pointer: string, what: string, n: Node): string
  {
    "Expected " + pointer + " to be " + what + ", " + TypeName(n) + " given."
  }

  /** The failure of a shape check on `v`. */
  function Mismatch<T>(v: Value, what: string): (r: Result<T>)
    ensures r.Fail? && r.failure == Leaf(Expected(v.pointer, what, v.node))
  {
    Fail(Leaf(Expected(v.pointer, what, v.node)))
  }

  /** `sprintf("Expected %s to be present, none given.", pointer)`. */
  function Missing(pointer: string): string
  {
    "Expected " + pointer + " to be present, none given."
  }

  // ---------------------------------------------------------------------------------------------
  // The `is*` predicates.

  predicate IsObject(v: Value) { v.node.Obj? }
  predicate IsArray(v: Value) { v.node.Arr? }
  predicate IsNumber(v: Value) { v.node.Num? }
  predicate IsString(v: Value) { v.node.Str? }
  predicate IsBool(v: Value) { v.node.Bool? }
  predicate IsTrue(v: Value) { v.node == Bool(true) }
  predicate IsFalse(v: Value) { v.node == Bool(false) }
  predicate IsNull(v: Value) { v.node.Null? }

  /** Each predicate holds exactly when the type word of the node is the matching one. */
  lemma PredicatesMatchTypeNames(v: Value)
    ensures IsObject(v) <==> TypeName(v.node) == "object"
    ensures IsArray(v) <==> TypeName(v.node) == "array"
    ensures IsNumber(v) <==> TypeName(v.node) == "number"
    ensures IsString(v) <==> TypeName(v.node) == "string"
    ensures IsBool(v) <==> TypeName(v.node) in {"true", "false"}
    ensures IsTrue(v) <==> TypeName(v.node) == "true"
    ensures IsFalse(v) <==> TypeName(v.node) == "false"
    ensures IsNull(v) <==> TypeName(v.node) == "null"
  {
  }

  // ---------------------------------------------------------------------------------------------
  // Navigation.

  /** `hasField`: asserts an object, then tells whether the field exists. */
  function HasField(v: Value, name: string): (r: Result<bool>)
    ensures r.Ok? <==> IsObject(v)
    ensures r.Ok? ==> r.value == HasKey(v.node.fields, name)
    ensures !r.Ok? ==> r == Mismatch(v, "an object")
  {
    if !IsObject(v) then Mismatch(v, "an object") else Ok(HasKey(v.node.fields, name))
  }

  /** `hasNth`: asserts an array, then tells whether the index exists. */
  function HasNth(v: Value, n: int): (r: Result<bool>)
    ensures r.Ok? <==> IsArray(v)
    ensures r.Ok? ==> r.value == (0 <= n < |v.node.items|)
    ensures !r.Ok? ==> r == Mismatch(v, "an array")
  {
    if !IsArray(v) then Mismatch(v, "an array") else Ok(0 <= n < |v.node.items|)
  }

  /** `field`: the child under `name`, whose pointer is extended by `.name`. */
  function Field(v: Value, name: string): (r: Result<Value>)
    ensures !IsObject(v) ==> r == Mismatch(v, "an object")
    ensures IsObject(v) && !HasKey(v.node.fields, name) ==>
              r == Fail(Leaf(Missing(FieldPointer(v.pointer, name))))
    ensures IsObject(v) && HasKey(v.node.fields, name) ==>
              r == Ok(Value(Lookup(v.node.fields, name), FieldPointer(v.pointer, name)))
  {
    match HasField(v, name)
    case Ok(present) =>
      if !present then Fail(Leaf(Missing(FieldPointer(v.pointer, name))))
      else Ok(Value(Lookup(v.node.fields, name), FieldPointer(v.pointer, name)))
    case Fail(e) => Fail(e)
    case Raise(e) => Raise(e)
  }

  /** `nth`: the element at index `n`, whose pointer is extended by `[n]`. */
  function Nth(v: Value, n: int): (r: Result<Value>)
    ensures !IsArray(v) ==> r == Mismatch(v, "an array")
    ensures IsArray(v) && !(0 <= n < |v.node.items|) ==>
              r == Fail(Leaf(Missing(IndexPointer(v.pointer, n))))
    ensures IsArray(v) && 0 <= n < |v.node.items| ==>
              r == Ok(Value(v.node.items[n], IndexPointer(v.pointer, n)))
  {
    match HasNth(v, n)
    case Ok(present) =>
      if !present then Fail(Leaf(Missing(IndexPointer(v.pointer, n))))
      else Ok(Value(v.node.items[n], IndexPointer(v.pointer, n)))
    case Fail(e) => Fail(e)
    case Raise(e) => Raise(e)
  }

  /**
   * `¿field`: absent at the extended pointer when the field is missing, the strict child
   * (normalised: a null child is absent too) when present. A null `Value` is not an object,
   * so it fails like `field` does.
   */
  function MaybeField(v: Value, name: string): (r: Result<OptionalValue>)
    ensures !IsObject(v) ==> r == Mismatch(v, "an object")
    ensures IsObject(v) && !HasKey(v.node.fields, name) ==>
              r == Ok(MakeOptional(None, FieldPointer(v.pointer, name)))
    ensures IsObject(v) && HasKey(v.node.fields, name) ==>
              Field(v, name).Ok? &&
              r == Ok(MakeOptional(Some(Field(v, name).value), FieldPointer(v.pointer, name)))
  {
    match HasField(v, name)
    case Ok(present) =>
      if !present then Ok(MakeOptional(None, FieldPointer(v.pointer, name)))
      else Ok(MakeOptional(Some(Field(v, name).value), FieldPointer(v.pointer, name)))
    case Fail(e) => Fail(e)
    case Raise(e) => Raise(e)
  }

  /** `¿nth`: absent at the extended pointer when the index is missing, the strict element otherwise. */
  function MaybeNth(v: Value, n: int): (r: Result<OptionalValue>)
    ensures !IsArray(v) ==> r == Mismatch(v, "an array")
    ensures IsArray(v) && !(0 <= n < |v.node.items|) ==>
              r == Ok(MakeOptional(None, IndexPointer(v.pointer, n)))
    ensures IsArray(v) && 0 <= n < |v.node.items| ==>
              Nth(v, n).Ok? &&
              r == Ok(MakeOptional(Some(Nth(v, n).value), IndexPointer(v.pointer, n)))
  {
    match HasNth(v, n)
    case Ok(present) =>
      if !present then Ok(MakeOptional(None, IndexPointer(v.pointer, n)))
      else Ok(MakeOptional(Some(Nth(v, n).value), IndexPointer(v.pointer, n)))
    case Fail(e) => Fail(e)
    case Raise(e) => Raise(e)
  }

  /** One navigation step: a field name or an index. */
  datatype Step = Key(name: string) | Index(n: int)

  /** The pointer a chain of steps leads to: `.name` per field, `[n]` per index. */
  function PointerAfter(pointer: string, steps: seq<Step>): string
    decreases |steps|
  {
    if steps == [] then pointer
    else
      var p := match steps[0] case Key(k) => FieldPointer(pointer, k) case Index(n) => IndexPointer(pointer, n);
      PointerAfter(p, steps[1..])
  }

  /** A chain of `field` and `nth` calls. */
  function Navigate(v: Value, steps: seq<Step>): (r: Result<Value>)
    decreases |steps|
  {
    if steps == [] then Ok(v)
    else
      var next := match steps[0] case Key(k) => Field(v, k) case Index(n) => Nth(v, n);
      match next
      case Ok(w) => Navigate(w, steps[1..])
      case Fail(e) => Fail(e)
      case Raise(e) => Raise(e)
  }

  /** A chain that succeeds ends at the pointer its steps spell out; no step ever raises a non-assertion. */
  lemma {:induction false} NavigatePointer(v: Value, steps: seq<Step>)
    ensures Navigate(v, steps).Ok? ==> Navigate(v, steps).value.pointer == PointerAfter(v.pointer, steps)
    ensures !Navigate(v, steps).Raise?
    decreases |steps|
  {
    if steps != [] {
      match steps[0]
      case Key(k) =>
        if Field(v, k).Ok? {
          NavigatePointer(Field(v, k).value, steps[1..]);
        }
      case Index(n) =>
        if Nth(v, n).Ok? {
          NavigatePointer(Nth(v, n).value, steps[1..]);
        }
    }
  }

  // ---------------------------------------------------------------------------------------------
  // Terminal conversions and their `¿` forms.

  /** `int`: the number (numbers are integers in this model). */
  function AsInt(v: Value): (r: Result<int>)
    ensures r.Ok? <==> IsNumber(v)
    ensures r.Ok? ==> r.value == v.node.n
    ensures !r.Ok? ==> r == Mismatch(v, "a number")
  {
    if IsNumber(v) then Ok(v.node.n) else Mismatch(v, "a number")
  }

  /** `string`. */
  function AsString(v: Value): (r: Result<string>)
    ensures r.Ok? <==> IsString(v)
    ensures r.Ok? ==> r.value == v.node.s
    ensures !r.Ok? ==> r == Mismatch(v, "a string")
  {
    if IsString(v) then Ok(v.node.s) else Mismatch(v, "a string")
  }

  /** `bool`. */
  function AsBool(v: Value): (r: Result<bool>)
    ensures r.Ok? <==> IsBool(v)
    ensures r.Ok? ==> r.value == v.node.b
    ensures !r.Ok? ==> r == Mismatch(v, "true or false")
  {
    if IsBool(v) then Ok(v.node.b) else Mismatch(v, "true or false")
  }

  /** `true`. */
  function AsTrue(v: Value): (r: Result<bool>)
    ensures r.Ok? <==> IsTrue(v)
    ensures r.Ok? ==> r.value
    ensures !r.Ok? ==> r == Mismatch(v, "true")
  {
    if IsTrue(v) then Ok(true) else Mismatch(v, "true")
  }

  /** `false`. */
  function AsFalse(v: Value): (r: Result<bool>)
    ensures r.Ok? <==> IsFalse(v)
    ensures r.Ok? ==> !r.value
    ensures !r.Ok? ==> r == Mismatch(v, "false")
  {
    if IsFalse(v) then Ok(false) else Mismatch(v, "false")
  }

  /** `null`: returns (PHP null, here the unit value) only on a null node. */
  function AsNull(v: Value): (r: Result<()>)
    ensures r.Ok? <==> IsNull(v)
    ensures !r.Ok? ==> r == Mismatch(v, "null")
  {
    if IsNull(v) then Ok(()) else Mismatch(v, "null")
  }

  /** The `¿` form of a conversion: null on a null node, the strict outcome otherwise. */
  function OrNull<T>(v: Value, strict: Result<T>): (r: Result<Option<T>>)
    ensures IsNull(v) ==> r == Ok(None)
    ensures !IsNull(v) ==> r == Lift(strict)
  {
    if IsNull(v) then Ok(None) else Lift(strict)
  }

  function MaybeInt(v: Value): Result<Option<int>> { OrNull(v, AsInt(v)) }
  function MaybeString(v: Value): Result<Option<string>> { OrNull(v, AsString(v)) }
  function MaybeBool(v: Value): Result<Option<bool>> { OrNull(v, AsBool(v)) }
  function MaybeTrue(v: Value): Result<Option<bool>> { OrNull(v, AsTrue(v)) }
  function MaybeFalse(v: Value): Result<Option<bool>> { OrNull(v, AsFalse(v)) }

  /**
   * The `¿` terminals return null exactly on a null node, return `x` exactly when the strict
   * conversion does, and otherwise throw what the strict one throws.
   */
  lemma {:induction false} NullableTerminal<T>(v: Value, strict: Result<T>)
    requires IsNull(v) ==> !strict.Ok?
    ensures OrNull(v, strict) == Ok(None) <==> IsNull(v)
    ensures forall x :: OrNull(v, strict) == Ok(Some(x)) <==> strict == Ok(x)
    ensures !IsNull(v) && !strict.Ok? ==> OrNull(v, strict) == Propagate(strict)
  {
    if !IsNull(v) {
      match strict
      case Ok(x) =>
      case Fail(e) =>
      case Raise(e) =>
    }
  }

  /** No strict conversion other than `null` succeeds on a null node, so the lemma above applies to each. */
  lemma StrictTerminalsRejectNull(v: Value)
    requires IsNull(v)
    ensures !AsInt(v).Ok? && !AsString(v).Ok? && !AsBool(v).Ok? && !AsTrue(v).Ok? && !AsFalse(v).Ok?
    ensures MaybeInt(v) == Ok(None) && MaybeString(v) == Ok(None) && MaybeBool(v) == Ok(None)
    ensures MaybeTrue(v) == Ok(None) && MaybeFalse(v) == Ok(None)
  {
  }

  // ---------------------------------------------------------------------------------------------
  // Enumerations: `enum` as lookup in an explicit list of constant names.

  /** `"Expected %s to be enumeration constant '%s', '%s' given."`. */
  function NotConstant(pointer: string, name: string, given: string): Failure
  {
    Leaf("Expected " + pointer + " to be enumeration constant '" + name + "', '" + given + "' given.")
  }

  /** The failure when the enumeration has no constants (the source's wording, "to by", kept). */
  function NoConstants(pointer: string, given: string): Failure
  {
    Leaf("Expected field " + pointer + " to by any of no enumeration constants, '" + given + "' given.")
  }

  /**
   * `enum` over an enumeration whose constants are `names`: a string equal to one of them is
   * that constant; otherwise one failure per constant, in declaration order.
   */
  function Enum(v: Value, names: seq<string>): (r: Result<string>)
    ensures !IsString(v) ==> r == Mismatch(v, "a string")
    ensures IsString(v) && names == [] ==> r == Fail(NoConstants(v.pointer, v.node.s))
    ensures r.Ok? <==> IsString(v) && v.node.s in names
    ensures r.Ok? ==> r.value == v.node.s
    ensures IsString(v) && names != [] && v.node.s !in names ==>
              r.Fail? && r.failure.Many? &&
              GetFailedAssertions(r.failure)
                == seq(|names|, i requires 0 <= i < |names| => NotConstant(v.pointer, names[i], v.node.s))
  {
    match AsString(v)
    case Ok(s) =>
      if names == [] then Fail(NoConstants(v.pointer, s))
      else if s in names then Ok(s)
      else
        var failures := seq(|names|, i requires 0 <= i < |names| => NotConstant(v.pointer, names[i], s));
        Fail(FromFailedAssertions(failures[0], failures[1..]))
    case Fail(e) => Fail(e)
    case Raise(e) => Raise(e)
  }

  function MaybeEnum(v: Value, names: seq<string>): Result<Option<string>> { OrNull(v, Enum(v, names)) }

  // ---------------------------------------------------------------------------------------------
  // Maps over arrays and objects.

  /** The child `foreach` hands to the callback for array index `i`. */
  function Element(v: Value, i: nat): Value
    requires IsArray(v) && i < |v.node.items|
  {
    Value(v.node.items[i], IndexPointer(v.pointer, i))
  }

  /** The outcome of the callback on every element, in order. */
  function ArrayOutcomes<T>(v: Value, f: (int, Value) -> Result<T>): (rs: seq<Result<T>>)
    requires IsArray(v)
    ensures |rs| == |v.node.items|
    ensures forall i :: 0 <= i < |rs| ==> rs[i] == f(i, Element(v, i))
  {
    seq(|v.node.items|, i requires 0 <= i < |v.node.items| => f(i, Element(v, i)))
  }

  /** What `arrayMapWithIndex` returns or throws. */
  function MappedArray<T>(v: Value, f: (int, Value) -> Result<T>): Result<seq<T>>
  {
    if !IsArray(v) then Mismatch(v, "an array") else Collect(ArrayOutcomes(v, f))
  }

  /**
   * `arrayMapWithIndex` fails on a non-array; otherwise it succeeds exactly when every call
   * does, with one result per element in order, and else rethrows the first call's throwable.
   */
  lemma MappedArrayMeaning<T>(v: Value, f: (int, Value) -> Result<T>)
    ensures !IsArray(v) ==> MappedArray(v, f) == Mismatch(v, "an array")
    ensures MappedArray(v, f).Ok? <==>
              IsArray(v) && forall i :: 0 <= i < |v.node.items| ==> f(i, Element(v, i)).Ok?
    ensures MappedArray(v, f).Ok? ==>
              |MappedArray(v, f).value| == |v.node.items| &&
              forall i :: 0 <= i < |v.node.items| ==> MappedArray(v, f).value[i] == f(i, Element(v, i)).value
    ensures forall i :: IsArray(v) && 0 <= i < |v.node.items| && !f(i, Element(v, i)).Ok? &&
                        (forall j :: 0 <= j < i ==> f(j, Element(v, j)).Ok?) ==>
              MappedArray(v, f) == Propagate(f(i, Element(v, i)))
  {
    if IsArray(v) {
      var rs := ArrayOutcomes(v, f);
      CollectOk(rs);
      forall i | 0 <= i < |rs| && !rs[i].Ok? && (forall j :: 0 <= j < i ==> rs[j].Ok?)
        ensures Collect(rs) == Propagate(rs[i])
      {
        CollectFirstError(rs, i);
      }
    }
  }

  /** `arrayMapWithIndex`: the `foreach` over the list, stopping at the first throw. */
  method ArrayMapWithIndex<T>(v: Value, f: (int, Value) -> Result<T>) returns (r: Result<seq<T>>)
    ensures r == MappedArray(v, f)
  {
    if !IsArray(v) {
      return Mismatch(v, "an array");
    }
    var items := v.node.items;
    ghost var rs := ArrayOutcomes(v, f);
    var buffer: seq<T> := [];
    var i := 0;
    while i < |items|
      invariant 0 <= i <= |items|
      invariant |buffer| == i
      invariant forall j :: 0 <= j < i ==> rs[j] == Ok(buffer[j])
    {
      var out := f(i, Value(items[i], IndexPointer(v.pointer, i)));
      if !out.Ok? {
        CollectFirstError(rs, i);
        return Propagate(out);
      }
      buffer := buffer + [out.value];
      i := i + 1;
    }
    CollectOk(rs);
    assert Collect(rs).value == buffer;
    return Ok(buffer);
  }

  /** The callback `arrayMap` and `objectMap` wrap around theirs: the index or key is dropped. */
  function IgnoreKey<K(!new), T>(f: Value -> Result<T>): (g: (K, Value) -> Result<T>)
    ensures forall k, x :: g(k, x) == f(x)
  {
    (k: K, x: Value) => f(x)
  }

  /** `arrayMap`. */
  method ArrayMap<T>(v: Value, f: Value -> Result<T>) returns (r: Result<seq<T>>)
    ensures r == MappedArray(v, IgnoreKey(f))
  {
    r := ArrayMapWithIndex(v, IgnoreKey(f));
  }

  /** `¿arrayMapWithIndex`: null on a null node, without calling back. */
  method MaybeArrayMapWithIndex<T>(v: Value, f: (int, Value) -> Result<T>) returns (r: Result<Option<seq<T>>>)
    ensures IsNull(v) ==> r == Ok(None)
    ensures !IsNull(v) ==> r == Lift(MappedArray(v, f))
  {
    if IsNull(v) {
      return Ok(None);
    }
    var m := ArrayMapWithIndex(v, f);
    return Lift(m);
  }

  /** `¿arrayMap`. */
  method MaybeArrayMap<T>(v: Value, f: Value -> Result<T>) returns (r: Result<Option<seq<T>>>)
    ensures IsNull(v) ==> r == Ok(None)
    ensures !IsNull(v) ==> r == Lift(MappedArray(v, IgnoreKey(f)))
  {
    r := MaybeArrayMapWithIndex(v, IgnoreKey(f));
  }

  /** The child `foreach` hands to the callback for the `i`-th field. */
  function Member(v: Value, i: nat): Value
    requires IsObject(v) && i < |v.node.fields|
  {
    Value(v.node.fields[i].1, FieldPointer(v.pointer, v.node.fields[i].0))
  }

  /** A callback's outcome, keyed by its field name. */
  function Keyed<T>(key: string, r: Result<T>): (k: Result<(string, T)>)
    ensures k.Ok? <==> r.Ok?
    ensures k.Ok? ==> k.value == (key, r.value)
    ensures !k.Ok? ==> k == Propagate(r)
  {
    match r
    case Ok(x) => Ok((key, x))
    case Fail(e) => Fail(e)
    case Raise(e) => Raise(e)
  }

  /** The outcome of the callback on every field, keyed by the field's name, in order. */
  function ObjectOutcomes<T>(v: Value, f: (string, Value) -> Result<T>): (rs: seq<Result<(string, T)>>)
    requires IsObject(v)
    ensures |rs| == |v.node.fields|
    ensures forall i :: 0 <= i < |rs| ==> rs[i] == Keyed(v.node.fields[i].0, f(v.node.fields[i].0, Member(v, i)))
  {
    seq(|v.node.fields|, i requires 0 <= i < |v.node.fields| =>
      Keyed(v.node.fields[i].0, f(v.node.fields[i].0, Member(v, i))))
  }

  /** What `objectMapWithIndex` returns or throws: the associative array as key/result pairs. */
  function MappedObject<T>(v: Value, f: (string, Value) -> Result<T>): Result<seq<(string, T)>>
  {
    if !IsObject(v) then Mismatch(v, "an object") else Collect(ObjectOutcomes(v, f))
  }

  /**
   * `objectMapWithIndex` fails on a non-object; otherwise it succeeds exactly when every call
   * does, keeping exactly the original keys in their order, each with its callback's result,
   * and else rethrows the first call's throwable.
   */
  lemma MappedObjectMeaning<T>(v: Value, f: (string, Value) -> Result<T>)
    ensures !IsObject(v) ==> MappedObject(v, f) == Mismatch(v, "an object")
    ensures MappedObject(v, f).Ok? <==>
              IsObject(v) &&
              forall i :: 0 <= i < |v.node.fields| ==> f(v.node.fields[i].0, Member(v, i)).Ok?
    ensures MappedObject(v, f).Ok? ==>
              |MappedObject(v, f).value| == |v.node.fields| &&
              forall i :: 0 <= i < |v.node.fields| ==>
                MappedObject(v, f).value[i] == (v.node.fields[i].0, f(v.node.fields[i].0, Member(v, i)).value)
    ensures forall i :: IsObject(v) && 0 <= i < |v.node.fields| && !f(v.node.fields[i].0, Member(v, i)).Ok? &&
                        (forall j :: 0 <= j < i ==> f(v.node.fields[j].0, Member(v, j)).Ok?) ==>
              MappedObject(v, f) == Propagate(f(v.node.fields[i].0, Member(v, i)))
  {
    if IsObject(v) {
      var rs := ObjectOutcomes(v, f);
      CollectOk(rs);
      forall i | 0 <= i < |rs| && !rs[i].Ok? && (forall j :: 0 <= j < i ==> rs[j].Ok?)
        ensures Collect(rs) == Propagate(rs[i])
      {
        CollectFirstError(rs, i);
      }
    }
  }

  /** `objectMapWithIndex`: the `foreach` over the fields, stopping at the first throw. */
  method ObjectMapWithIndex<T>(v: Value, f: (string, Value) -> Result<T>) returns (r: Result<seq<(string, T)>>)
    ensures r == MappedObject(v, f)
  {
    if !IsObject(v) {
      return Mismatch(v, "an object");
    }
    var fields := v.node.fields;
    ghost var rs := ObjectOutcomes(v, f);
    var buffer: seq<(string, T)> := [];
    var i := 0;
    while i < |fields|
      invariant 0 <= i <= |fields|
      invariant |buffer| == i
      invariant forall j :: 0 <= j < i ==> rs[j] == Ok(buffer[j])
    {
      var key := fields[i].0;
      var out := f(key, Value(fields[i].1, FieldPointer(v.pointer, key)));
      if !out.Ok? {
        CollectFirstError(rs, i);
        return Propagate(out);
      }
      buffer := buffer + [(key, out.value)];
      i := i + 1;
    }
    CollectOk(rs);
    assert Collect(rs).value == buffer;
    return Ok(buffer);
  }

  /** `objectMap`. */
  method ObjectMap<T>(v: Value, f: Value -> Result<T>) returns (r: Result<seq<(string, T)>>)
    ensures r == MappedObject(v, IgnoreKey(f))
  {
    r := ObjectMapWithIndex(v, IgnoreKey(f));
  }

  /** `¿objectMapWithIndex`: null on a null node, without calling back. */
  method MaybeObjectMapWithIndex<T>(v: Value, f: (string, Value) -> Result<T>)
    returns (r: Result<Option<seq<(string, T)>>>)
    ensures IsNull(v) ==> r == Ok(None)
    ensures !IsNull(v) ==> r == Lift(MappedObject(v, f))
  {
    if IsNull(v) {
      return Ok(None);
    }
    var m := ObjectMapWithIndex(v, f);
    return Lift(m);
  }

  /** `¿objectMap`. */
  method MaybeObjectMap<T>(v: Value, f: Value -> Result<T>) returns (r: Result<Option<seq<(string, T)>>>)
    ensures IsNull(v) ==> r == Ok(None)
    ensures !IsNull(v) ==> r == Lift(MappedObject(v, IgnoreKey(f)))
  {
    r := MaybeObjectMapWithIndex(v, IgnoreKey(f));
  }

  // ---------------------------------------------------------------------------------------------
  // Combinators.

  /** `apply`: the callback's outcome, rethrown unchanged. */
  function Apply<T>(v: Value, f: Value -> Result<T>): (r: Result<T>)
    ensures r == f(v)
  {
    f(v)
  }

  /** `¿apply`: null on a null node, the callback's outcome otherwise. */
  function MaybeApply<T>(v: Value, f: Value -> Result<T>): (r: Result<Option<T>>)
    ensures IsNull(v) ==> r == Ok(None)
    ensures !IsNull(v) ==> r == Lift(f(v))
  {
    if IsNull(v) then Ok(None) else Lift(f(v))
  }

  /**
   * What trying the alternatives `alts` in order yields after the failures `failed` were
   * collected: the first outcome that is not an `AssertionFailed`, or the aggregate of all.
   */
  function Tried<T>(v: Value, alts: seq<Value -> Result<T>>, failed: seq<Failure>): Result<T>
    requires alts != [] || failed != []
    decreases |alts|
  {
    if alts == [] then Fail(FromFailedAssertions(failed[0], failed[1..]))
    else
      match alts[0](v)
      case Fail(e) => Tried(v, alts[1..], failed + [e])
      case Ok(x) => Ok(x)
      case Raise(e) => Raise(e)
  }

  /** What `either(f, g, ...hs)` returns or throws. */
  function EitherOutcome<T>(v: Value, f: Value -> Result<T>, g: Value -> Result<T>,
                            hs: seq<Value -> Result<T>>): Result<T>
  {
    Tried(v, [f, g] + hs, [])
  }

  /**
   * The first alternative that does not throw an `AssertionFailed` decides: its value is
   * returned, or its other throwable aborts the rest.
   */
  lemma {:induction false} TriedFirstDecides<T>(v: Value, alts: seq<Value -> Result<T>>,
                                                failed: seq<Failure>, i: nat)
    requires i < |alts| && !alts[i](v).Fail?
    requires forall j :: 0 <= j < i ==> alts[j](v).Fail?
    ensures Tried(v, alts, failed) == alts[i](v)
    decreases i
  {
    if i > 0 {
      assert forall j :: 0 <= j < i - 1 ==> alts[1..][j] == alts[j + 1];
      TriedFirstDecides(v, alts[1..], failed + [alts[0](v).failure], i - 1);
    }
  }

  /** The failures of alternatives that all fail, in call order. */
  function Failures<T>(v: Value, alts: seq<Value -> Result<T>>): (fs: seq<Failure>)
    requires forall j :: 0 <= j < |alts| ==> alts[j](v).Fail?
    ensures |fs| == |alts|
    ensures forall j :: 0 <= j < |alts| ==> fs[j] == alts[j](v).failure
  {
    seq(|alts|, j requires 0 <= j < |alts| && alts[j](v).Fail? => alts[j](v).failure)
  }

  /** When every alternative fails, the aggregate holds the collected and the new failures, in order. */
  lemma {:induction false} TriedAllFail<T>(v: Value, alts: seq<Value -> Result<T>>, failed: seq<Failure>)
    requires alts != [] || failed != []
    requires forall j :: 0 <= j < |alts| ==> alts[j](v).Fail?
    ensures var all := failed + Failures(v, alts);
            Tried(v, alts, failed) == Fail(FromFailedAssertions(all[0], all[1..]))
    decreases |alts|
  {
    if alts == [] {
      assert failed + Failures(v, alts) == failed;
    } else {
      assert forall j :: 0 <= j < |alts| - 1 ==> alts[1..][j] == alts[j + 1];
      TriedAllFail(v, alts[1..], failed + [alts[0](v).failure]);
      assert failed + [alts[0](v).failure] + Failures(v, alts[1..]) == failed + Failures(v, alts);
    }
  }

  /**
   * `either`: the first alternative, in call order, that does not throw an `AssertionFailed`
   * decides the outcome, whether it returns or throws something else.
   */
  lemma EitherFirstDecides<T>(v: Value, f: Value -> Result<T>, g: Value -> Result<T>,
                              hs: seq<Value -> Result<T>>, i: nat)
    requires var alts := [f, g] + hs;
             i < |alts| && !alts[i](v).Fail? && forall j :: 0 <= j < i ==> alts[j](v).Fail?
    ensures EitherOutcome(v, f, g, hs) == ([f, g] + hs)[i](v)
  {
    TriedFirstDecides(v, [f, g] + hs, [], i);
  }

  /** The failures of `[f, g] + hs` are `f`'s, then `g`'s, then those of `hs`. */
  lemma FailuresOfAlternatives<T>(v: Value, f: Value -> Result<T>, g: Value -> Result<T>,
                                  hs: seq<Value -> Result<T>>)
    requires f(v).Fail? && g(v).Fail? && forall j :: 0 <= j < |hs| ==> hs[j](v).Fail?
    ensures forall j :: 0 <= j < |[f, g] + hs| ==> ([f, g] + hs)[j](v).Fail?
    ensures Failures(v, [f, g] + hs) == [f(v).failure] + ([g(v).failure] + Failures(v, hs))
  {
    var alts := [f, g] + hs;
    forall j | 2 <= j < |alts| ensures alts[j] == hs[j - 2] {
    }
    var all := Failures(v, alts);
    var expected := [f(v).failure] + ([g(v).failure] + Failures(v, hs));
    forall j | 2 <= j < |alts| ensures all[j] == expected[j] {
      assert expected[j] == Failures(v, hs)[j - 2];
    }
    assert all == expected;
  }

  /**
   * `either`: if every alternative throws an `AssertionFailed`, the aggregate's head is the
   * first failure and its tail the others, in call order.
   */
  lemma EitherAllFail<T>(v: Value, f: Value -> Result<T>, g: Value -> Result<T>, hs: seq<Value -> Result<T>>)
    requires f(v).Fail? && g(v).Fail? && forall j :: 0 <= j < |hs| ==> hs[j](v).Fail?
    ensures EitherOutcome(v, f, g, hs)
            == Fail(FromFailedAssertions(f(v).failure, [g(v).failure] + Failures(v, hs)))
  {
    FailuresOfAlternatives(v, f, g, hs);
    TriedAllFail(v, [f, g] + hs, []);
    assert [] + Failures(v, [f, g] + hs) == Failures(v, [f, g] + hs);
  }

  /** `either`: the `foreach` over `[f, g, ...hs]`, returning early. */
  method Either<T>(v: Value, f: Value -> Result<T>, g: Value -> Result<T>, hs: seq<Value -> Result<T>>)
    returns (r: Result<T>)
    ensures r == EitherOutcome(v, f, g, hs)
  {
    var alts := [f, g] + hs;
    var failed: seq<Failure> := [];
    var i := 0;
    while i < |alts|
      invariant 0 <= i <= |alts|
      invariant |failed| == i
      invariant Tried(v, alts, []) == Tried(v, alts[i..], failed)
    {
      var out := alts[i](v);
      assert alts[i..][1..] == alts[i + 1..];
      if !out.Fail? {
        return out;
      }
      failed := failed + [out.failure];
      i := i + 1;
    }
    assert alts[i..] == [];
    return Fail(FromFailedAssertions(failed[0], failed[1..]));
  }

  /** `¿either`: null on a null node, `either` otherwise (an aggregate, not the last failure). */
  method MaybeEither<T>(v: Value, f: Value -> Result<T>, g: Value -> Result<T>, hs: seq<Value -> Result<T>>)
    returns (r: Result<Option<T>>)
    ensures IsNull(v) ==> r == Ok(None)
    ensures !IsNull(v) ==> r == Lift(EitherOutcome(v, f, g, hs))
  {
    if IsNull(v) {
      return Ok(None);
    }
    var e := Either(v, f, g, hs);
    return Lift(e);
  }

  // ---------------------------------------------------------------------------------------------
  // Encoding, with `json_encode` as a parameter.

  /**
   * What `json_encode` does: it returns the text or `false` (`None`), with `json_last_error_msg`
   * and `json_last_error` as they are afterwards; or it throws (a `JsonException` under
   * `JSON_THROW_ON_ERROR`, a `ValueError` for a depth below 1), which `encode` does not catch.
   */
  datatype Encoded =
    | Encoded(text: Option<string>, errorMessage: string, errorCode: int)
    | EncodeThrew(error: Error)

  /** `JSON_PRETTY_PRINT`. */
  const JsonPrettyPrint: int := 128

  /**
   * `encode(options, depth)`: the encoder's text, `CantEncode` with its message and code when it
   * returns `false`, or whatever it throws.
   */
  function Encode(v: Value, options: int, depth: int, encoder: (Node, int, int) -> Encoded): (r: Result<string>)
    ensures !r.Fail?
    ensures r.Ok? <==> encoder(v.node, options, depth).Encoded? && encoder(v.node, options, depth).text.Some?
    ensures r.Ok? ==> r.value == encoder(v.node, options, depth).text.value
    ensures encoder(v.node, options, depth).EncodeThrew? ==> r == Raise(encoder(v.node, options, depth).error)
    ensures encoder(v.node, options, depth).Encoded? && encoder(v.node, options, depth).text.None? ==>
              r == Raise(CantEncode(encoder(v.node, options, depth).errorMessage,
                                    encoder(v.node, options, depth).errorCode))
  {
    var e := encoder(v.node, options, depth);
    if e.EncodeThrew? then Raise(e.error)
    else if e.text.None? then Raise(CantEncode(e.errorMessage, e.errorCode)) else Ok(e.text.value)
  }

  /** `prettyPrint(depth)`: `encode(JSON_PRETTY_PRINT, depth)`. */
  function PrettyPrint(v: Value, depth: int, encoder: (Node, int, int) -> Encoded): (r: Result<string>)
    ensures r == Encode(v, JsonPrettyPrint, depth, encoder)
  {
    Encode(v, JsonPrettyPrint, depth, encoder)
  }

  /** `¿encode`: null on a null node. */
  function MaybeEncode(v: Value, options: int, depth: int, encoder: (Node, int, int) -> Encoded)
    : Result<Option<string>>
  {
    OrNull(v, Encode(v, options, depth, encoder))
  }

  /** `¿prettyPrint`: null on a null node. */
  function MaybePrettyPrint(v: Value, depth: int, encoder: (Node, int, int) -> Encoded): Result<Option<string>>
  {
    OrNull(v, PrettyPrint(v, depth, encoder))
  }

  /** `validate`: runs the validator, then returns this same value. */
  function Validate(v: Value, validator: Value -> Result<()>): (r: Result<Value>)
    ensures r.Ok? <==> validator(v).Ok?
    ensures r.Ok? ==> r.value == v
    ensures !r.Ok? ==> r == Propagate(validator(v))
  {
    match validator(v)
    case Ok(_) => Ok(v)
    case Fail(e) => Fail(e)
    case Raise(e) => Raise(e)
  }
}
